/** What the event manager does for each delivered launch event: tracing, read-ahead and launch history. */
module LaunchStates {
  import opened Wrappers
  import opened Bytes
  import opened LaunchDefender

  const SLASH: byte := 47
  const DOT: byte := 46

  datatype Component = Component(packageName: Text, activityName: Text)

  // The activity name in full.
  function Canonicalize(c: Component): Component {
    if c.activityName != [] && c.activityName[0] == DOT
    then c.(activityName := c.packageName + c.activityName)
    else c
  }

  function Find(s: Text, b: byte): (k: nat)
    ensures k <= |s| && b !in s[..k] && (k < |s| ==> s[k] == b)
  {
    if s == [] || s[0] == b then 0
    else assert s[..1 + Find(s[1..], b)] == [s[0]] + s[1..][..Find(s[1..], b)]; 1 + Find(s[1..], b)
  }

  predicate HasComponent(title: Text) {
    SLASH in title
  }

  function FromString(title: Text): Component {
    if !HasComponent(title) then Component(title, [])
    else Component(title[..Find(title, SLASH)], title[Find(title, SLASH) + 1..])
  }

  type Blacklist = seq<Text>

  predicate IsBlacklisted(blacklist: Blacklist, name: Option<Component>) {
    name.Some? && name.value.packageName in blacklist
  }

  // The component an intent, or the title of an activity record, names.
  function IntentComponent(intent: Intent): Component {
    Canonicalize(Component(intent.packageName, intent.className))
  }

  function TitleComponent(title: Text): Component {
    Canonicalize(FromString(title))
  }

  /**
   What is answered from outside while one event is handled: the two switches, the package's version when
   a compiled trace is looked up and when it is asked for after that, the compiled traces that exist, and the row id if the launch can be inserted into the database.
   */
  datatype Answers = Answers(
    readaheadAllowed: bool, tracingAllowed: bool, lookupVersion: Option<int>, version: Option<int>,
    storedTrace: Option<Text>, prebuiltTrace: Option<Text>, insertedRow: Option<int>)

  function CompiledTrace(a: Answers): Option<Text> {
    if a.lookupVersion.None? then None else if a.storedTrace.Some? then a.storedTrace else a.prebuiltTrace
  }

  datatype Task = Task(id: nat, path: Text)

  // What is done to each collaborator, in order.
  datatype TaskEvent = Begun(task: Task) | Finished(task: Task)
  datatype TraceEvent = Started(lifetime: nat, history: Option<nat>) | Dropped(lifetime: nat)
  datatype ChainEvent = Opened(chain: nat) | Value(chain: nat, row: int) | Completed(chain: nat) | Failed(chain: nat)
  datatype RowEvent =
    | Inserted(row: int, traced: bool, readAhead: bool, startedNs: Option<nat>, totalNs: Option<nat>)
    | Updated(row: int, fullyDrawnNs: uint64)

  /**
   The fields of AppLaunchEventState, grouped by concern, each group with what its calls have amounted to
   so far. `unused` is the first identity not yet given to a trace subscription or a history chain, and
   `failedCheck` says that a debug check was reached and did not hold.
   */
  datatype ReadAheads = ReadAheads(task: Option<Task>, log: seq<TaskEvent>, failedCheck: bool)
  datatype Tracing = Tracing(
    on: bool, lifetime: Option<nat>, inFlight: seq<nat>, unused: nat, log: seq<TraceEvent>, failedCheck: bool)
  datatype History = History(
    subscriber: Option<nat>, observable: Option<nat>, recentId: Option<int>, unused: nat,
    chains: seq<ChainEvent>, rows: seq<RowEvent>)
  datatype Launch = Launch(
    component: Option<Component>, temperature: Option<Temperature>, startedNs: Option<nat>, totalNs: Option<nat>)
  datatype State = State(
    sequenceId: nat, allowedReadahead: bool, allowedTracing: bool,
    launch: Launch, readAhead: ReadAheads, tracing: Tracing, history: History, failedCheck: bool)

  const INITIAL := State(0, true, true, Launch(None, None, None, None), ReadAheads(None, [], false),
                         Tracing(false, None, [], 0, [], false), History(None, None, None, 0, [], []), false)

  function StartReadAhead(r: ReadAheads, allowed: bool, id: nat, a: Answers): ReadAheads {
    var r := r.(failedCheck := r.failedCheck || !allowed || r.task.Some?);
    match CompiledTrace(a)
    case None => r
    case Some(path) => r.(task := Some(Task(id, path)), log := r.log + [Begun(Task(id, path))])
  }

  function FinishReadAhead(r: ReadAheads): ReadAheads {
    match r.task
    case None => r
    case Some(task) => r.(task := None, log := r.log + [Finished(task)])
  }

  // StartTracing, with its result stored: nothing when the package's version is unknown.
  function StartTrace(t: Tracing, allowed: bool, observable: Option<nat>, a: Answers): Tracing {
    var t := t.(failedCheck := t.failedCheck || !allowed || t.on);
    if a.version.None? then t.(lifetime := None)
    else t.(lifetime := Some(t.unused), on := true, unused := t.unused + 1,
            log := t.log + [Started(t.unused, observable)])
  }

  function Remove(list: seq<nat>, x: nat): seq<nat> {
    if list == [] then []
    else Remove(list[..|list| - 1], x) + if list[|list| - 1] == x then [] else [list[|list| - 1]]
  }

  function AbortTrace(t: Tracing): Tracing {
    if !t.on then t
    else if t.lifetime.None? then t.(on := false)
    else t.(on := false, lifetime := None, inFlight := Remove(t.inFlight, t.lifetime.value),
            log := t.log + [Dropped(t.lifetime.value)])
  }

  function MarkPendingTrace(t: Tracing): Tracing {
    var t := t.(failedCheck := t.failedCheck || !t.on || t.lifetime.None?);
    if t.lifetime.None? then t.(on := false)
    else t.(on := false, lifetime := None, inFlight := t.inFlight + [t.lifetime.value])
  }

  // The row a launch is recorded under, if it can be.
  function HistoryRow(launch: Launch, a: Answers): Option<int> {
    if launch.component.None? || launch.temperature.None? || a.version.None? then None else a.insertedRow
  }

  function OpenChain(h: History): History {
    h.(subscriber := Some(h.unused), observable := Some(h.unused), unused := h.unused + 1,
       chains := h.chains + [Opened(h.unused)])
  }

  function FailChain(h: History): History {
    match h.subscriber
    case None => h
    case Some(chain) => h.(subscriber := None, chains := h.chains + [Failed(chain)])
  }

  function InsertHistory(h: History, launch: Launch, traced: bool, readAhead: bool, a: Answers): History {
    match HistoryRow(launch, a)
    case None => h
    case Some(row) => h.(rows := h.rows + [Inserted(row, traced, readAhead, launch.startedNs, launch.totalNs)])
  }

  function RecordHistory(h: History, launch: Launch, traced: bool, readAhead: bool, a: Answers): History {
    var row, h := HistoryRow(launch, a), InsertHistory(h, launch, traced, readAhead, a);
    match h.subscriber
    case None => h
    case Some(chain) =>
      h.(subscriber := None, recentId := row,
         chains := h.chains + if row.None? then [Failed(chain)] else [Value(chain, row.value), Completed(chain)])
  }

  function AsUint64(n: int): uint64 {
    n % 0x1_0000_0000_0000_0000
  }

  function ReportDrawn(h: History, timestampNanos: int): History {
    if h.recentId.None? then h
    else h.(recentId := None, rows := h.rows + [Updated(h.recentId.value, AsUint64(timestampNanos))])
  }

  // Read-ahead if there is a compiled trace for it, and otherwise tracing.
  function StartEither(s: State, a: Answers): State {
    var r := if s.allowedReadahead then StartReadAhead(s.readAhead, s.allowedReadahead, s.sequenceId, a) else s.readAhead;
    var t := if s.allowedTracing && r.task.None? then StartTrace(s.tracing, s.allowedTracing, s.history.observable, a)
             else s.tracing;
    s.(readAhead := r, tracing := t)
  }

  function Abort(s: State): State {
    s.(tracing := AbortTrace(s.tracing), readAhead := FinishReadAhead(s.readAhead))
  }

  predicate Ignored(s: State, blacklist: Blacklist) {
    IsBlacklisted(blacklist, s.launch.component)
  }

  function OnIntentStarted(s: State, blacklist: Blacklist, event: LaunchEvent, a: Answers): State {
    var s := s.(launch := s.launch.(component := Some(IntentComponent(event.intent))));
    if Ignored(s, blacklist) then s else
    var s := s.(history := OpenChain(s.history), failedCheck := s.failedCheck || s.tracing.on,
                launch := if event.timestampNanos < 0 then s.launch else s.launch.(startedNs := Some(event.timestampNanos)));
    if event.intent.hasComponent then StartEither(s, a) else s
  }

  function OnIntentFailed(s: State, blacklist: Blacklist): State {
    if Ignored(s, blacklist) then s else Abort(s).(history := FailChain(s.history))
  }

  function OnActivityLaunched(s: State, blacklist: Blacklist, event: LaunchEvent, a: Answers): State {
    if !HasComponent(event.title) then s else
    var s := s.(launch := s.launch.(component := Some(TitleComponent(event.title))));
    if Ignored(s, blacklist) then s else
    var s := s.(launch := s.launch.(temperature := Some(event.temperature)));
    if event.temperature != Cold then Abort(s)
    else if !s.tracing.on && s.readAhead.task.None? then StartEither(s, a)
    else s
  }

  function OnActivityLaunchFinished(s: State, blacklist: Blacklist, event: LaunchEvent, a: Answers): State {
    if Ignored(s, blacklist) then s else
    var launch := if event.timestampNanos < 0 then s.launch else s.launch.(totalNs := Some(event.timestampNanos));
    s.(launch := launch,
       history := RecordHistory(s.history, launch, s.tracing.on, s.readAhead.task.Some?, a),
       tracing := if s.tracing.on then MarkPendingTrace(s.tracing) else s.tracing,
       readAhead := FinishReadAhead(s.readAhead))
  }

  function OnReportFullyDrawn(s: State, blacklist: Blacklist, event: LaunchEvent): State {
    if Ignored(s, blacklist) then s else s.(history := ReportDrawn(s.history, event.timestampNanos))
  }

  function Prepared(s: State, event: LaunchEvent, a: Answers): State {
    s.(sequenceId := event.sequenceId, allowedReadahead := a.readaheadAllowed, allowedTracing := a.tracingAllowed)
  }

  // The whole effect of one delivered event.
  function OnEvent(s: State, blacklist: Blacklist, event: LaunchEvent, a: Answers): State {
    var s := Prepared(s, event, a);
    match event.kind
    case IntentStarted => OnIntentStarted(s, blacklist, event, a)
    case IntentFailed => OnIntentFailed(s, blacklist)
    case ActivityLaunched => OnActivityLaunched(s, blacklist, event, a)
    case ActivityLaunchFinished => OnActivityLaunchFinished(s, blacklist, event, a)
    case ActivityLaunchCancelled => if Ignored(s, blacklist) then s else Abort(s)
    case ReportFullyDrawn => OnReportFullyDrawn(s, blacklist, event)
    case _ => s.(failedCheck := true)
  }

  class AppLaunchEventState {
    const packageBlacklist: Blacklist
    var sequenceId: nat
    var allowedReadahead: bool
    var allowedTracing: bool
    var launch: Launch
    var readAhead: ReadAheads
    var tracing: Tracing
    var history: History
    var failedCheck: bool

    function View(): State
      reads this
    {
      State(sequenceId, allowedReadahead, allowedTracing, launch, readAhead, tracing, history, failedCheck)
    }

    constructor (packageBlacklist: Blacklist)
      ensures this.packageBlacklist == packageBlacklist && View() == INITIAL
    {
      this.packageBlacklist := packageBlacklist;
      sequenceId, allowedReadahead, allowedTracing := 0, true, true;
      launch := Launch(None, None, None, None);
      readAhead := ReadAheads(None, [], false);
      tracing := Tracing(false, None, [], 0, [], false);
      history := History(None, None, None, 0, [], []);
      failedCheck := false;
    }

    method BeginTask(id: nat, a: Answers)
      modifies this`readAhead
      ensures readAhead == StartReadAhead(old(readAhead), allowedReadahead, id, a)
    {
      if !allowedReadahead || readAhead.task.Some? {
        readAhead := readAhead.(failedCheck := true);
      }
      var path := CompiledTrace(a);
      if path.None? {
        return;
      }
      var task := Task(id, path.value);
      readAhead := readAhead.(log := readAhead.log + [Begun(task)]);
      readAhead := readAhead.(task := Some(task));
    }

    method FinishTask()
      modifies this`readAhead
      ensures readAhead == FinishReadAhead(old(readAhead))
    {
      if readAhead.task.None? {
        return;
      }
      readAhead := readAhead.(log := readAhead.log + [Finished(readAhead.task.value)]);
      readAhead := readAhead.(task := None);
    }

    method StartTracing(a: Answers) returns (lifetime: Option<nat>)
      modifies this`tracing
      ensures tracing.(lifetime := lifetime) == StartTrace(old(tracing), allowedTracing, history.observable, a)
    {
      if !allowedTracing || tracing.on {
        tracing := tracing.(failedCheck := true);
      }
      if a.version.None? {
        return None;
      }
      lifetime := Some(tracing.unused);
      tracing := tracing.(log := tracing.log + [Started(tracing.unused, history.observable)], unused := tracing.unused + 1);
      tracing := tracing.(on := true);
    }

    method DropTrace()
      modifies this`tracing
      ensures tracing == AbortTrace(old(tracing))
    {
      if !tracing.on {
        return;
      }
      tracing := tracing.(on := false);
      if tracing.lifetime.Some? {
        tracing := tracing.(inFlight := Remove(tracing.inFlight, tracing.lifetime.value));
        tracing := tracing.(log := tracing.log + [Dropped(tracing.lifetime.value)]);
        tracing := tracing.(lifetime := None);
      }
    }

    method LeaveTracePending()
      modifies this`tracing
      ensures tracing == MarkPendingTrace(old(tracing))
    {
      if !tracing.on || tracing.lifetime.None? {
        tracing := tracing.(failedCheck := true);
      }
      if tracing.lifetime.Some? {
        tracing := tracing.(inFlight := tracing.inFlight + [tracing.lifetime.value]);
        tracing := tracing.(lifetime := None);
      }
      tracing := tracing.(on := false);
    }

    method InsertDbLaunchHistory(a: Answers) returns (row: Option<int>)
      modifies this`history
      ensures row == HistoryRow(launch, a)
      ensures history == InsertHistory(old(history), launch, tracing.on, readAhead.task.Some?, a)
      ensures history == old(history).(rows := history.rows)
    {
      if launch.component.None? || launch.temperature.None? {
        return None;
      }
      if a.version.None? {
        return None;
      }
      row := a.insertedRow;
      if row.Some? {
        history := history.(rows := history.rows +
          [Inserted(row.value, tracing.on, readAhead.task.Some?, launch.startedNs, launch.totalNs)]);
      }
    }

    method RecordDbLaunchHistory(a: Answers)
      modifies this`history
      ensures history == RecordHistory(old(history), launch, tracing.on, readAhead.task.Some?, a)
    {
      hide HistoryRow, InsertHistory;
      var row := InsertDbLaunchHistory(a);
      if history.subscriber.None? {
        return;
      }
      var chain := history.subscriber.value;
      if row.None? {
        history := history.(chains := history.chains + [Failed(chain)]);
        history := history.(recentId := None);
      } else {
        history := history.(chains := history.chains + [Value(chain, row.value), Completed(chain)]);
        history := history.(recentId := Some(row.value));
      }
      history := history.(subscriber := None);
    }

    // Read-ahead or else tracing, as both kIntentStarted and a cold kActivityLaunched do it.
    method StartReadAheadOrTracing(a: Answers)
      modifies this`readAhead, this`tracing
      ensures View() == StartEither(old(View()), a)
    {
      hide StartReadAhead, StartTrace;
      if allowedReadahead {
        BeginTask(sequenceId, a);
      }
      if allowedTracing && readAhead.task.None? {
        var lifetime := StartTracing(a);
        tracing := tracing.(lifetime := lifetime);
      }
    }

    // The case of kIntentStarted.
    method IntentHasStarted(event: LaunchEvent, a: Answers)
      modifies this
      ensures View() == OnIntentStarted(old(View()), packageBlacklist, event, a)
    {
      hide StartEither, IsBlacklisted, IntentComponent;
      launch := launch.(component := Some(IntentComponent(event.intent)));
      if IsBlacklisted(packageBlacklist, launch.component) {
        return;
      }
      history := OpenChain(history);
      if tracing.on {
        failedCheck := true;
      }
      if 0 <= event.timestampNanos {
        launch := launch.(startedNs := Some(event.timestampNanos));
      }
      if !event.intent.hasComponent {
        return;
      }
      StartReadAheadOrTracing(a);
    }

    // The case of kActivityLaunched.
    method ActivityHasLaunched(event: LaunchEvent, a: Answers)
      modifies this
      ensures View() == OnActivityLaunched(old(View()), packageBlacklist, event, a)
    {
      hide StartEither, IsBlacklisted, TitleComponent, AbortTrace, FinishReadAhead;
      if !HasComponent(event.title) {
        return;
      }
      launch := launch.(component := Some(TitleComponent(event.title)));
      if IsBlacklisted(packageBlacklist, launch.component) {
        return;
      }
      launch := launch.(temperature := Some(event.temperature));
      if event.temperature != Cold {
        DropTrace();
        FinishTask();
      } else if !tracing.on && readAhead.task.None? {
        StartReadAheadOrTracing(a);
      }
    }

    // The case of kActivityLaunchFinished.
    method LaunchHasFinished(event: LaunchEvent, a: Answers)
      modifies this
      ensures View() == OnActivityLaunchFinished(old(View()), packageBlacklist, event, a)
    {
      hide IsBlacklisted, RecordHistory, MarkPendingTrace, FinishReadAhead;
      if IsBlacklisted(packageBlacklist, launch.component) {
        return;
      }
      if 0 <= event.timestampNanos {
        launch := launch.(totalNs := Some(event.timestampNanos));
      }
      RecordDbLaunchHistory(a);
      if tracing.on {
        LeaveTracePending();
      }
      FinishTask();
    }

    method OnNewEvent(event: LaunchEvent, a: Answers)
      modifies this
      ensures View() == OnEvent(old(View()), packageBlacklist, event, a)
    {
      hide OnIntentStarted, OnActivityLaunched, OnActivityLaunchFinished, AbortTrace, FinishReadAhead, IsBlacklisted;
      sequenceId := event.sequenceId;
      allowedReadahead := a.readaheadAllowed;
      allowedTracing := a.tracingAllowed;
      match event.kind {
        case IntentStarted =>
          IntentHasStarted(event, a);
        case IntentFailed =>
          if !IsBlacklisted(packageBlacklist, launch.component) {
            DropTrace();
            FinishTask();
            history := FailChain(history);
          }
        case ActivityLaunched =>
          ActivityHasLaunched(event, a);
        case ActivityLaunchFinished =>
          LaunchHasFinished(event, a);
        case ActivityLaunchCancelled =>
          if !IsBlacklisted(packageBlacklist, launch.component) {
            DropTrace();
            FinishTask();
          }
        case ReportFullyDrawn =>
          if !IsBlacklisted(packageBlacklist, launch.component) {
            history := ReportDrawn(history, event.timestampNanos);
          }
        case _ =>
          failedCheck := true;
      }
    }
  }
}
