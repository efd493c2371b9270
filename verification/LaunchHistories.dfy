/** Launch history over whole runs: the subscribers waiting for a row id, and the rows themselves. */
module LaunchHistories {
  import opened Wrappers
  import opened Bytes
  import opened LaunchDefender
  import opened LaunchStates
  import opened LaunchRuns

  /// No subscriber is terminated twice.

  predicate Ends(e: ChainEvent, chain: nat) {
    (e.Completed? || e.Failed?) && e.chain == chain
  }

  function Endings(chains: seq<ChainEvent>, chain: nat): nat {
    if chains == [] then 0
    else Endings(chains[..|chains| - 1], chain) + if Ends(chains[|chains| - 1], chain) then 1 else 0
  }

  ghost predicate EndedAtMostOnce(h: History) {
    && (forall chain: nat :: Endings(h.chains, chain) <= 1)
    && (forall chain: nat :: Endings(h.chains, chain) > 0 ==> chain < h.unused && h.subscriber != Some(chain))
    && (h.subscriber.Some? ==> h.subscriber.value < h.unused)
  }

  lemma OneMoreEvent(chains: seq<ChainEvent>, e: ChainEvent, chain: nat)
    ensures Endings(chains + [e], chain) == Endings(chains, chain) + if Ends(e, chain) then 1 else 0
  {
    assert (chains + [e])[..|chains|] == chains;
  }

  lemma ChainEventsKeep(h: History)
    requires EndedAtMostOnce(h)
    ensures EndedAtMostOnce(OpenChain(h)) && EndedAtMostOnce(FailChain(h))
  {
    forall chain: nat
      ensures Endings(OpenChain(h).chains, chain) == Endings(h.chains, chain)
      ensures Endings(FailChain(h).chains, chain) ==
              Endings(h.chains, chain) + if h.subscriber == Some(chain) then 1 else 0
    {
      OneMoreEvent(h.chains, Opened(h.unused), chain);
      if h.subscriber.Some? {
        OneMoreEvent(h.chains, Failed(h.subscriber.value), chain);
      }
    }
  }

  lemma RecordingKeeps(h: History, launch: Launch, traced: bool, readAhead: bool, a: Answers)
    requires EndedAtMostOnce(h)
    ensures EndedAtMostOnce(RecordHistory(h, launch, traced, readAhead, a))
  {
    hide HistoryRow, Endings;
    var row := HistoryRow(launch, a);
    if h.subscriber.Some? {
      var c := h.subscriber.value;
      var valued := h.chains + if row.None? then [] else [Value(c, row.value)];
      var chains := valued + [if row.None? then Failed(c) else Completed(c)];
      assert RecordHistory(h, launch, traced, readAhead, a).chains == chains;
      forall chain: nat ensures Endings(chains, chain) == Endings(h.chains, chain) + if c == chain then 1 else 0 {
        OneMoreEvent(valued, chains[|chains| - 1], chain);
        if row.Some? {
          OneMoreEvent(h.chains, Value(c, row.value), chain);
        } else {
          assert valued == h.chains;
        }
      }
    }
  }

  lemma DrawingKeeps(h: History, timestampNanos: int)
    requires EndedAtMostOnce(h)
    ensures EndedAtMostOnce(ReportDrawn(h, timestampNanos))
  {
    hide Endings;
  }

  // What each event does to the history.
  function HistoryAfter(s: State, blacklist: Blacklist, event: LaunchEvent, a: Answers): History {
    match event.kind
    case IntentStarted =>
      if IsBlacklisted(blacklist, Some(IntentComponent(event.intent))) then s.history else OpenChain(s.history)
    case IntentFailed => if Ignored(s, blacklist) then s.history else FailChain(s.history)
    case ActivityLaunchFinished =>
      var launch := if event.timestampNanos < 0 then s.launch else s.launch.(totalNs := Some(event.timestampNanos));
      if Ignored(s, blacklist) then s.history
      else RecordHistory(s.history, launch, s.tracing.on, s.readAhead.task.Some?, a)
    case ReportFullyDrawn => if Ignored(s, blacklist) then s.history else ReportDrawn(s.history, event.timestampNanos)
    case _ => s.history
  }

  lemma HistoryOfEvent(s: State, blacklist: Blacklist, event: LaunchEvent, a: Answers)
    ensures OnEvent(s, blacklist, event, a).history == HistoryAfter(s, blacklist, event, a)
  {
    hide OpenChain, FailChain, RecordHistory, ReportDrawn, StartReadAhead, StartTrace, AbortTrace, FinishReadAhead,
      MarkPendingTrace, IsBlacklisted, HasComponent, TitleComponent, IntentComponent;
  }

  lemma EventKeepsChains(s: State, blacklist: Blacklist, event: LaunchEvent, a: Answers)
    requires EndedAtMostOnce(s.history)
    ensures EndedAtMostOnce(OnEvent(s, blacklist, event, a).history)
  {
    hide OnEvent, EndedAtMostOnce, OpenChain, FailChain, RecordHistory, ReportDrawn, IsBlacklisted, IntentComponent;
    HistoryOfEvent(s, blacklist, event, a);
    ChainEventsKeep(s.history);
    DrawingKeeps(s.history, event.timestampNanos);
    var launch := if event.timestampNanos < 0 then s.launch else s.launch.(totalNs := Some(event.timestampNanos));
    RecordingKeeps(s.history, launch, s.tracing.on, s.readAhead.task.Some?, a);
  }

  lemma NoneEnded()
    ensures EndedAtMostOnce(INITIAL.history)
  {
  }

  // Over every run, blacklisting and flips included.
  lemma {:induction false} SubscribersEndAtMostOnce(blacklist: Blacklist, inputs: seq<Input>)
    ensures EndedAtMostOnce(Run(blacklist, inputs).state.history)
  {
    hide OnEvent, EndedAtMostOnce;
    if inputs == [] {
      NoneEnded();
    } else {
      var front, input := inputs[..|inputs| - 1], inputs[|inputs| - 1];
      SubscribersEndAtMostOnce(blacklist, front);
      var m := Run(blacklist, front);
      var delivered := Passed(input.event, Judge(m.last, input.event).1);
      if delivered != [] {
        EventKeepsChains(m.state, blacklist, delivered[0], input.answers);
      }
    }
  }

  /// A launch that finishes finds its subscriber.

  // A launch begins, but its intent is blacklisted.
  predicate IntentIgnored(m: Machine, blacklist: Blacklist, input: Input) {
    Resting(m.last) && input.event.kind.IntentStarted? &&
    IsBlacklisted(blacklist, Some(IntentComponent(input.event.intent)))
  }

  predicate IgnoredAt(blacklist: Blacklist, inputs: seq<Input>, i: nat)
    requires i < |inputs|
  {
    IntentIgnored(Run(blacklist, inputs[..i]), blacklist, inputs[i])
  }

  lemma SubscriberStep(m: Machine, blacklist: Blacklist, input: Input)
    requires !Resting(m.last) ==> m.state.history.subscriber.Some?
    requires !IntentIgnored(m, blacklist, input)
    ensures var m' := Step(m, blacklist, input); !Resting(m'.last) ==> m'.state.history.subscriber.Some?
  {
    hide RecordHistory, StartReadAhead, StartTrace, AbortTrace, FinishReadAhead, MarkPendingTrace,
      IsBlacklisted, HasComponent, TitleComponent, IntentComponent;
  }

  lemma {:induction false} SubscriberWaits(blacklist: Blacklist, inputs: seq<Input>)
    requires forall i | 0 <= i < |inputs| :: !IgnoredAt(blacklist, inputs, i)
    ensures var m := Run(blacklist, inputs); !Resting(m.last) ==> m.state.history.subscriber.Some?
  {
    hide Step, IntentIgnored;
    if inputs != [] {
      var n := |inputs| - 1;
      forall i | 0 <= i < n ensures !IgnoredAt(blacklist, inputs[..n], i) {
        assert inputs[..n][..i] == inputs[..i];
        assert !IgnoredAt(blacklist, inputs, i);
      }
      SubscriberWaits(blacklist, inputs[..n]);
      assert !IgnoredAt(blacklist, inputs, n);
      SubscriberStep(Run(blacklist, inputs[..n]), blacklist, inputs[n]);
    }
  }

  // The row an event inserted.
  function InsertedBy(before: State, after: State): Option<int> {
    var n := |before.history.rows|;
    if |after.history.rows| > n && after.history.rows[n].Inserted? then Some(after.history.rows[n].row) else None
  }

  function ThreeSteps(m: Machine, blacklist: Blacklist, inputs: (Input, Input, Input)): (Machine, Machine, Machine) {
    var m1 := Step(m, blacklist, inputs.0);
    var m2 := Step(m1, blacklist, inputs.1);
    (m1, m2, Step(m2, blacklist, inputs.2))
  }

  /**
   A launch that is not blacklisted from its intent to its end opens one chain of its own and ends that
   chain with the row it inserted, or with an error when it inserted none.
   */
  lemma FinishedLaunchEndsItsChain(m: Machine, blacklist: Blacklist, start: Input, launched: Input, finished: Input)
    requires Resting(m.last) && start.event.kind == IntentStarted && !IntentIgnored(m, blacklist, start)
    requires launched.event.kind == ActivityLaunched && finished.event.kind == ActivityLaunchFinished
    requires !Ignored(ThreeSteps(m, blacklist, (start, launched, finished)).1.state, blacklist)
    ensures var (_, m2, m3) := ThreeSteps(m, blacklist, (start, launched, finished));
            var chain, row := m.state.history.unused, InsertedBy(m2.state, m3.state);
            m3.state.history.chains == m.state.history.chains + [Opened(chain)] +
              (if row.None? then [Failed(chain)] else [Value(chain, row.value), Completed(chain)]) &&
            m3.state.history.recentId == row && m3.state.history.subscriber == None
  {
    hide StartReadAhead, StartTrace, AbortTrace, FinishReadAhead, MarkPendingTrace,
      HasComponent, TitleComponent, IntentComponent, IsBlacklisted;
    var (m1, m2, m3) := ThreeSteps(m, blacklist, (start, launched, finished));
    assert m1.state.history == OpenChain(m.state.history);
    assert m2.state.history == m1.state.history;
  }

  /// A report of being fully drawn.

  function Update(row: Option<int>, ns: uint64): seq<RowEvent> {
    if row.None? then [] else [Updated(row.value, ns)]
  }

  // The report changes exactly the row its own launch inserted, or nothing if that inserted none.
  predicate Faithful(m: Machine, blacklist: Blacklist, finished: Input, drawn: Input) {
    var m1 := Step(m, blacklist, finished);
    var m2 := Step(m1, blacklist, drawn);
    m2.state.history.rows == m1.state.history.rows +
      Update(InsertedBy(m.state, m1.state), AsUint64(drawn.event.timestampNanos))
  }

  lemma SameTail(front: seq<RowEvent>, a: seq<RowEvent>, b: seq<RowEvent>)
    ensures front + a == front + b <==> a == b
  {
    assert (front + a)[|front|..] == a && (front + b)[|front|..] == b;
  }

  /**
   That fails exactly when the launch finishes with no subscriber waiting, so that its row is not
   remembered, and the id remembered from before is another one.
   */
  lemma FaithfulIffRemembered(m: Machine, blacklist: Blacklist, finished: Input, drawn: Input)
    requires m.last == ActivityLaunched
    requires finished.event.kind == ActivityLaunchFinished && drawn.event.kind == ReportFullyDrawn
    ensures Faithful(m, blacklist, finished, drawn) <==>
            || Ignored(m.state, blacklist)
            || m.state.history.subscriber.Some?
            || m.state.history.recentId == HistoryRow(m.state.launch, finished.answers)
  {
    hide IsBlacklisted, MarkPendingTrace, FinishReadAhead;
    var m1 := Step(m, blacklist, finished);
    assert m1.last == ActivityLaunchFinished;
    var launch := if finished.event.timestampNanos < 0 then m.state.launch
                  else m.state.launch.(totalNs := Some(finished.event.timestampNanos));
    assert HistoryRow(launch, finished.answers) == HistoryRow(m.state.launch, finished.answers);
    if !Ignored(m.state, blacklist) {
      assert m1.state.history ==
             RecordHistory(m.state.history, launch, m.state.tracing.on, m.state.readAhead.task.Some?, finished.answers);
      var inserted, remembered := HistoryRow(m.state.launch, finished.answers), m1.state.history.recentId;
      assert InsertedBy(m.state, m1.state) == inserted;
      assert Step(m1, blacklist, drawn).state.history == ReportDrawn(m1.state.history, drawn.event.timestampNanos);
      var ns := AsUint64(drawn.event.timestampNanos);
      SameTail(m1.state.history.rows, Update(remembered, ns), Update(inserted, ns));
    }
  }

  // With no intent blacklisted, every report is faithful, whatever came before.
  lemma ReportsAreFaithful(blacklist: Blacklist, inputs: seq<Input>, finished: Input, drawn: Input)
    requires forall i | 0 <= i < |inputs| :: !IgnoredAt(blacklist, inputs, i)
    requires Run(blacklist, inputs).last == ActivityLaunched
    requires finished.event.kind == ActivityLaunchFinished && drawn.event.kind == ReportFullyDrawn
    ensures Faithful(Run(blacklist, inputs), blacklist, finished, drawn)
  {
    hide Run, Step, IntentIgnored, Faithful;
    SubscriberWaits(blacklist, inputs);
    FaithfulIffRemembered(Run(blacklist, inputs), blacklist, finished, drawn);
  }

  /**
   A launch that starts with a blacklisted intent but launches another package's activity: after an
   earlier launch that was never reported as fully drawn, its report changes the earlier launch's row.
   */
  lemma StaleReport(m: Machine, blacklist: Blacklist, start: Input, launched: Input, finished: Input, drawn: Input)
    requires Resting(m.last) && m.state.history.subscriber.None? && m.state.history.recentId.Some?
    requires start.event.kind == IntentStarted && IntentIgnored(m, blacklist, start)
    requires launched.event.kind == ActivityLaunched && HasComponent(launched.event.title)
    requires !IsBlacklisted(blacklist, Some(TitleComponent(launched.event.title)))
    requires finished.event.kind == ActivityLaunchFinished && drawn.event.kind == ReportFullyDrawn
    ensures var (_, m2, m3) := ThreeSteps(m, blacklist, (start, launched, finished));
            Step(m3, blacklist, drawn).state.history.rows == m3.state.history.rows +
              [Updated(m.state.history.recentId.value, AsUint64(drawn.event.timestampNanos))]
  {
    hide StartReadAhead, StartTrace, AbortTrace, FinishReadAhead, MarkPendingTrace,
      HasComponent, TitleComponent, IntentComponent, IsBlacklisted;
    var (m1, m2, m3) := ThreeSteps(m, blacklist, (start, launched, finished));
    assert m2.state.history == m1.state.history == m.state.history;
    assert m3.state.history.recentId == m.state.history.recentId;
  }

  /// It happens, from the start.

  // Package 1 is launched; the intents are for package 1 or for package 2, which is blacklisted.
  function ExampleInput(kind: Kind, package: byte, row: int): Input {
    Input(LaunchEvent(kind, 0, Intent(false, [package], [3]), Cold, [1, SLASH, 3], 0),
          Answers(false, false, None, Some(1), None, None, Some(row)))
  }

  lemma ExampleNames()
    ensures HasComponent([1, SLASH, 3]) && !IsBlacklisted([[2]], Some(TitleComponent([1, SLASH, 3])))
    ensures !IsBlacklisted([[2]], Some(IntentComponent(Intent(false, [1], [3]))))
    ensures IsBlacklisted([[2]], Some(IntentComponent(Intent(false, [2], [3]))))
  {
    assert [1, SLASH, 3][1..] == [SLASH, 3] && Find([SLASH, 3], SLASH) == 0;
    assert Find([1, SLASH, 3], SLASH) == 1;
    assert [1, SLASH, 3][..1] == [1];
    assert [1] != [2] by { assert [1][0] != [2][0]; }
  }

  // The first launch is recorded in row 1 and never reported as fully drawn.
  lemma FirstLaunch() returns (m: Machine)
    ensures m == Run([[2]], [ExampleInput(IntentStarted, 1, 1), ExampleInput(ActivityLaunched, 1, 1),
                             ExampleInput(ActivityLaunchFinished, 1, 1)])
    ensures Resting(m.last) && m.state.history.subscriber == None && m.state.history.recentId == Some(1)
  {
    var start, launched, finished :=
      ExampleInput(IntentStarted, 1, 1), ExampleInput(ActivityLaunched, 1, 1), ExampleInput(ActivityLaunchFinished, 1, 1);
    var inputs := [start, launched, finished];
    assert inputs[..2] == [start, launched] && [start, launched][..1] == [start] && [start][..0] == [];
    ExampleNames();
    m := FirstLaunchSteps();
    RunOfThree([[2]], start, launched, finished);
  }

  lemma RunOfThree(blacklist: Blacklist, a: Input, b: Input, c: Input)
    ensures Run(blacklist, [a, b, c]) == ThreeSteps(Run(blacklist, []), blacklist, (a, b, c)).2
  {
    hide Step;
    assert [a, b, c][..2] == [a, b] && [a, b][..1] == [a] && [a][..0] == [];
    assert Run(blacklist, [a]) == Step(Run(blacklist, []), blacklist, a);
    assert Run(blacklist, [a, b]) == Step(Run(blacklist, [a]), blacklist, b);
  }

  lemma FirstLaunchSteps() returns (m: Machine)
    ensures m == ThreeSteps(Run([[2]], []), [[2]],
                   (ExampleInput(IntentStarted, 1, 1), ExampleInput(ActivityLaunched, 1, 1),
                    ExampleInput(ActivityLaunchFinished, 1, 1))).2
    ensures Resting(m.last) && m.state.history.subscriber == None && m.state.history.recentId == Some(1)
  {
    ExampleNames();
    hide IsBlacklisted, HasComponent, TitleComponent, IntentComponent;
    var start, launched, finished :=
      ExampleInput(IntentStarted, 1, 1), ExampleInput(ActivityLaunched, 1, 1), ExampleInput(ActivityLaunchFinished, 1, 1);
    var (m1, m2, m3) := ThreeSteps(Run([[2]], []), [[2]], (start, launched, finished));
    assert m1.state.history.subscriber == Some(0) && m1.last == IntentStarted;
    assert m2.state.history == m1.state.history && m2.last == ActivityLaunched;
    assert m2.state.launch.temperature == Some(Cold) && m2.state.launch.component.Some?;
    m := m3;
  }

  /**
   A whole run: after the first launch, the second starts with the blacklisted intent, is recorded in row 2
   and reported as fully drawn, and the report changes row 1.
   */
  lemma StaleExample() returns (inputs: seq<Input>)
    ensures |inputs| == 7 && inputs[6].event.kind == ReportFullyDrawn
    ensures Run([[2]], inputs).state.history.rows ==
            Run([[2]], inputs[..6]).state.history.rows + [Updated(1, 0)]
    ensures InsertedBy(Run([[2]], inputs[..5]).state, Run([[2]], inputs[..6]).state) == Some(2)
  {
    hide Run, Step, ExampleInput, InsertedBy, ThreeSteps;
    var m := FirstLaunch();
    var a, b, c, d := ExampleInput(IntentStarted, 2, 2), ExampleInput(ActivityLaunched, 2, 2),
                      ExampleInput(ActivityLaunchFinished, 2, 2), ExampleInput(ReportFullyDrawn, 2, 2);
    var first := [ExampleInput(IntentStarted, 1, 1), ExampleInput(ActivityLaunched, 1, 1),
                  ExampleInput(ActivityLaunchFinished, 1, 1)];
    inputs := first + [a, b, c, d];
    RunsOn([[2]], first, a, b, c, d);
    SecondLaunch(m);
    SecondRow(m, a, b, c);
    IsReport();
  }

  lemma IsReport()
    ensures ExampleInput(ReportFullyDrawn, 2, 2).event.kind == ReportFullyDrawn
  {
  }

  lemma SecondLaunch(m: Machine)
    requires Resting(m.last) && m.state.history.subscriber.None? && m.state.history.recentId == Some(1)
    ensures var (_, _, m3) := ThreeSteps(m, [[2]], (ExampleInput(IntentStarted, 2, 2), ExampleInput(ActivityLaunched, 2, 2),
                                                    ExampleInput(ActivityLaunchFinished, 2, 2)));
            Step(m3, [[2]], ExampleInput(ReportFullyDrawn, 2, 2)).state.history.rows ==
            m3.state.history.rows + [Updated(1, 0)]
  {
    hide Step, ThreeSteps, IsBlacklisted, HasComponent, TitleComponent, IntentComponent;
    ExampleNames();
    StaleReport(m, [[2]], ExampleInput(IntentStarted, 2, 2), ExampleInput(ActivityLaunched, 2, 2),
                ExampleInput(ActivityLaunchFinished, 2, 2), ExampleInput(ReportFullyDrawn, 2, 2));
  }

  lemma RunsOn(blacklist: Blacklist, first: seq<Input>, a: Input, b: Input, c: Input, d: Input)
    ensures var inputs, n := first + [a, b, c, d], |first|;
            var (_, m2, m3) := ThreeSteps(Run(blacklist, first), blacklist, (a, b, c));
            Run(blacklist, inputs[..n + 2]) == m2 && Run(blacklist, inputs[..n + 3]) == m3 &&
            Run(blacklist, inputs) == Step(m3, blacklist, d)
  {
    hide Step;
    var inputs, n := first + [a, b, c, d], |first|;
    assert inputs[..n] == first;
    assert inputs[..n + 1][..n] == first;
    assert inputs[..n + 2][..n + 1] == inputs[..n + 1];
    assert inputs[..n + 3][..n + 2] == inputs[..n + 2];
    assert inputs[..|inputs| - 1] == inputs[..n + 3];
  }

  lemma SecondRow(m: Machine, a: Input, b: Input, c: Input)
    requires Resting(m.last) && m.state.history.subscriber.None?
    requires a == ExampleInput(IntentStarted, 2, 2) && b == ExampleInput(ActivityLaunched, 2, 2)
    requires c == ExampleInput(ActivityLaunchFinished, 2, 2)
    ensures var (_, m2, m3) := ThreeSteps(m, [[2]], (a, b, c)); InsertedBy(m2.state, m3.state) == Some(2)
  {
    ExampleNames();
    hide IsBlacklisted, HasComponent, TitleComponent, IntentComponent, StartReadAhead, StartTrace, AbortTrace,
      FinishReadAhead, MarkPendingTrace;
    var (m1, m2, m3) := ThreeSteps(m, [[2]], (a, b, c));
    assert m2.state.launch.temperature == Some(Cold) && m2.state.launch.component.Some?;
  }
}
