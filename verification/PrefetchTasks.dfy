/** Prefetching for app launches: one session per task, from a compiled trace file. */
module PrefetchTasks {
  import opened Wrappers
  import opened Bytes
  import opened TraceFiles
  import opened SystemCalls
  import opened Reassembly
  import opened Sessions
  import opened SessionResources
  import opened DirectSession
  import opened Stores
  import opened DirectManager
  import opened CompileThenPrefetch
  import opened Daemon
  import opened Client
  import opened Refinement

  // What beginning a task does to the store: a session, and the trace file processed in it if there is one.
  function Begin(w: World, env: Environment, id: nat, path: Text, kind: nat, file: Option<TraceFile>): World {
    if file.None? then Apply(w, env, Create(id, path)) else
    var o := Process(Fresh(id, path), w.log, env, kind, file.value);
    World(w.store[id := o.session], o.log)
  }

  lemma BeginUnfold(w: World, env: Environment, id: nat, path: Text, kind: nat, file: Option<TraceFile>)
    ensures file.None? ==> Begin(w, env, id, path, kind, file) == Apply(w, env, Create(id, path))
  {
  }

  /// The same task, made through the session interface of a remote store.

  function RegisterCalls(id: nat, index: seq<IndexEntry>): seq<Call> {
    if index == [] then [] else
    var before, last := RegisterCalls(id, index[..|index| - 1]), index[|index| - 1];
    if last.id < 0 then before else before + [OnSession(id, RegisterOp(last.id, last.fileName))]
  }

  function ReadAheadCalls(id: nat, kind: nat, list: seq<FileEntry>): seq<Call> {
    if list == [] then [] else
    var before, last := ReadAheadCalls(id, kind, list[..|list| - 1]), list[|list| - 1];
    if !Legal(last) then before
    else before + [OnSession(id, ReadAheadOp(AsSize(last.indexId), kind, last.fileLength, last.fileOffset))]
  }

  function TaskCalls(id: nat, path: Text, kind: nat, file: Option<TraceFile>): seq<Call> {
    [Create(id, path)] +
    if file.None? then [] else RegisterCalls(id, file.value.index) + ReadAheadCalls(id, kind, file.value.list)
  }

  lemma ApplyOne(w: World, env: Environment, calls: seq<Call>, call: Call)
    ensures ApplyAll(w, env, calls + [call]) == Apply(ApplyAll(w, env, calls), env, call)
  {
    assert (calls + [call])[..|calls|] == calls;
  }

  lemma {:induction false} RegisterCallsRegister(w: World, env: Environment, id: nat, index: seq<IndexEntry>)
    requires id in w.store
    ensures var o := RegisterAll(w.store[id], w.log, env, index);
            ApplyAll(w, env, RegisterCalls(id, index)) == World(w.store[id := o.session], o.log)
  {
    hide Register;
    if index != [] {
      var front, last := index[..|index| - 1], index[|index| - 1];
      RegisterCallsRegister(w, env, id, front);
      if 0 <= last.id {
        ApplyOne(w, env, RegisterCalls(id, front), OnSession(id, RegisterOp(last.id, last.fileName)));
      }
    } else {
      assert w.store[id := w.store[id]] == w.store;
    }
  }

  lemma {:induction false} ReadAheadCallsReadAhead(w: World, env: Environment, id: nat, kind: nat, list: seq<FileEntry>)
    requires id in w.store
    ensures var o := ReadAheadAll(w.store[id], w.log, env, kind, list);
            ApplyAll(w, env, ReadAheadCalls(id, kind, list)) == World(w.store[id := o.session], o.log)
  {
    hide Sessions.ReadAhead;
    if list != [] {
      var front, last := list[..|list| - 1], list[|list| - 1];
      ReadAheadCallsReadAhead(w, env, id, kind, front);
      if Legal(last) {
        ApplyOne(w, env, ReadAheadCalls(id, kind, front),
                 OnSession(id, ReadAheadOp(AsSize(last.indexId), kind, last.fileLength, last.fileOffset)));
      }
    } else {
      assert w.store[id := w.store[id]] == w.store;
    }
  }

  /**
   Calls made one by one on a manager amount to the whole: they leave the session that processing the
   whole trace file at once would leave.
   */
  lemma TaskCallsAreTheTask(w: World, env: Environment, id: nat, path: Text, kind: nat, file: Option<TraceFile>)
    requires id !in w.store
    ensures ApplyAll(w, env, TaskCalls(id, path, kind, file)) == Begin(w, env, id, path, kind, file)
  {
    hide RegisterAll, ReadAheadAll, RegisterCalls, ReadAheadCalls;
    var created := Apply(w, env, Create(id, path));
    ApplyOne(w, env, [], Create(id, path));
    assert [] + [Create(id, path)] == [Create(id, path)];
    if file.None? {
      assert TaskCalls(id, path, kind, file) == [Create(id, path)];
    } else {
      var registers, prefetches := RegisterCalls(id, file.value.index), ReadAheadCalls(id, kind, file.value.list);
      ApplyAllAppend(w, env, [Create(id, path)], registers + prefetches);
      ApplyAllAppend(created, env, registers, prefetches);
      RegisterCallsRegister(created, env, id, file.value.index);
      var registered := ApplyAll(created, env, registers);
      ReadAheadCallsReadAhead(registered, env, id, kind, file.value.list);
    }
  }

  /// The same task through the daemon.

  function AskAll(calls: seq<Call>): seq<Action> {
    seq(|calls|, i requires 0 <= i < |calls| => Ask(calls[i]))
  }

  lemma {:induction false} AskedAreApplied(w: World, env: Environment, calls: seq<Call>)
    requires forall call <- calls :: !call.CreateFromFd?
    ensures ActAll(Served(w, [], Running), env, AskAll(calls)) == Served(ApplyAll(w, env, calls), [], Running)
  {
    if calls != [] {
      hide Apply;
      var front, last := calls[..|calls| - 1], calls[|calls| - 1];
      AskedAreApplied(w, env, front);
      assert AskAll(calls)[..|calls| - 1] == AskAll(front);
      assert last in calls;
    }
  }

  // A task creates its session, registers and reads ahead; the daemon can be asked for all of these.
  predicate Ordinary(call: Call) {
    call.Create? || (call.OnSession? && (call.op.RegisterOp? || call.op.ReadAheadOp?))
  }

  lemma {:induction false} RegisterCallsAreOrdinary(id: nat, index: seq<IndexEntry>)
    ensures forall call <- RegisterCalls(id, index) :: Ordinary(call)
  {
    if index != [] {
      RegisterCallsAreOrdinary(id, index[..|index| - 1]);
    }
  }

  lemma {:induction false} ReadAheadCallsAreOrdinary(id: nat, kind: nat, list: seq<FileEntry>)
    ensures forall call <- ReadAheadCalls(id, kind, list) :: Ordinary(call)
  {
    if list != [] {
      ReadAheadCallsAreOrdinary(id, kind, list[..|list| - 1]);
    }
  }

  lemma TaskCallsAreOrdinary(id: nat, path: Text, kind: nat, file: Option<TraceFile>)
    ensures forall call <- TaskCalls(id, path, kind, file) :: Ordinary(call)
    ensures forall a <- AskAll(TaskCalls(id, path, kind, file)) :: Remote(a) && !(a.Ask? && a.call.CreateFromFd?)
  {
    hide RegisterCalls, ReadAheadCalls;
    if file.Some? {
      RegisterCallsAreOrdinary(id, file.value.index);
      ReadAheadCallsAreOrdinary(id, kind, file.value.list);
    }
    var calls := TaskCalls(id, path, kind, file);
    forall a <- AskAll(calls) ensures Remote(a) && !(a.Ask? && a.call.CreateFromFd?) {
      var i :| 0 <= i < |calls| && a == Ask(calls[i]);
      assert Ordinary(calls[i]);
    }
  }

  // All the bytes of some calls in range: the daemon is in the state the calls lead to directly.
  lemma AllArrived(w: World, env: Environment, actions: seq<Action>, pieces: seq<Text>)
    requires forall a <- actions :: Remote(a) && Fits(a) && InRange(a) && !(a.Ask? && a.call.CreateFromFd?)
    requires Flatten(pieces) == EncodeAll(CommandsFor(actions))
    ensures TakeAll(Start(w), env, false, PipeInputs(pieces)).served == ActAll(Served(w, [], Running), env, actions)
  {
    hide TakeAll, ActAll, Flatten, EncodeAll, CommandsFor, Fits, InRange, Remote, HaveArrived;
    var done := PipeRefinement(w, env, actions, pieces);
    assert actions[..done] == actions;
  }

  /**
   A task through the daemon: once the bytes of its calls have arrived, in whatever pieces, the daemon's
   store holds the session that processing the whole trace file in process would have left there.
   */
  lemma TaskThroughTheDaemon(
    w: World, env: Environment, id: nat, path: Text, kind: nat, file: Option<TraceFile>, pieces: seq<Text>)
    requires id !in w.store
    requires forall a <- AskAll(TaskCalls(id, path, kind, file)) :: Remote(a) && Fits(a) && InRange(a)
    requires Flatten(pieces) == EncodeAll(CommandsFor(AskAll(TaskCalls(id, path, kind, file))))
    ensures TakeAll(Start(w), env, false, PipeInputs(pieces)).served == Served(Begin(w, env, id, path, kind, file), [], Running)
  {
    hide TaskCalls, TakeAll, ActAll, Flatten, EncodeAll, CommandsFor, Begin, Fits, InRange, Remote, AskAll;
    var calls := TaskCalls(id, path, kind, file);
    TaskCallsAreOrdinary(id, path, kind, file);
    AllArrived(w, env, AskAll(calls), pieces);
    AskedAreApplied(w, env, calls);
    TaskCallsAreTheTask(w, env, id, path, kind, file);
  }

  /// Runs of beginning and finishing.

  // The store, and the ids whose data is remembered, with the path of each.
  datatype Tasks = Tasks(world: World, remembered: map<nat, Text>)

  // `file` is what opening the trace at `path` yields.
  datatype TaskOp =
    | BeginOp(id: nat, path: Text, kind: nat, file: Option<TraceFile>)
    | FinishOp(id: nat)

  function Step(t: Tasks, env: Environment, op: TaskOp): Tasks {
    match op
    case BeginOp(id, path, kind, file) =>
      Tasks(Begin(t.world, env, id, path, kind, file),
            if file.Some? then t.remembered[id := path] else t.remembered)
    case FinishOp(id) =>
      if id in t.remembered then Tasks(Apply(t.world, env, Destroy(id)), t.remembered - {id}) else t
  }

  function RunTasks(log: Log, env: Environment, ops: seq<TaskOp>): Tasks {
    if ops == [] then Tasks(World(map[], log), map[])
    else Step(RunTasks(log, env, ops[..|ops| - 1]), env, ops[|ops| - 1])
  }

  // Begun with a readable file and not finished.
  function Unfinished(ops: seq<TaskOp>): set<nat> {
    if ops == [] then {} else
    var before := Unfinished(ops[..|ops| - 1]);
    match ops[|ops| - 1]
    case BeginOp(id, _, _, file) => if file.Some? then before + {id} else before
    case FinishOp(id) => before - {id}
  }

  // Begun without a readable file, and not begun with one after that.
  function Orphans(ops: seq<TaskOp>): set<nat> {
    if ops == [] then {} else
    var before := Orphans(ops[..|ops| - 1]);
    match ops[|ops| - 1]
    case BeginOp(id, _, _, file) =>
      if file.Some? then before - {id} else if id in Unfinished(ops[..|ops| - 1]) then before else before + {id}
    case FinishOp(_) => before
  }

  lemma BeginAddsItsId(w: World, env: Environment, id: nat, path: Text, kind: nat, file: Option<TraceFile>)
    ensures Begin(w, env, id, path, kind, file).store.Keys == w.store.Keys + {id}
  {
    hide Process;
  }

  /**
   Over every run from an empty store: the sessions are those of the unfinished tasks, which are the ones
   remembered, and those of the orphans, which nothing will ever destroy. A trace file that cannot be read
   leaves its session behind.
   */
  lemma {:induction false} SessionsLeftBehind(log: Log, env: Environment, ops: seq<TaskOp>)
    ensures var t := RunTasks(log, env, ops);
            t.remembered.Keys == Unfinished(ops) && Unfinished(ops) !! Orphans(ops) &&
            t.world.store.Keys == Unfinished(ops) + Orphans(ops)
  {
    if ops != [] {
      hide Begin, Sessions.Destroy;
      var front := ops[..|ops| - 1];
      SessionsLeftBehind(log, env, front);
      match ops[|ops| - 1] {
        case BeginOp(id, path, kind, file) => BeginAddsItsId(RunTasks(log, env, front).world, env, id, path, kind, file);
        case FinishOp(_) =>
      }
    }
  }

  // Task ids only ever grow, so no id is begun twice.
  ghost predicate BegunOnce(ops: seq<TaskOp>) {
    forall i, j | 0 <= i < j < |ops| && ops[i].BeginOp? && ops[j].BeginOp? :: ops[i].id != ops[j].id
  }

  // Then the orphans are exactly the ids whose file could not be read.
  lemma {:induction false} OrphansHadNoFile(ops: seq<TaskOp>)
    requires BegunOnce(ops)
    ensures forall id :: id in Orphans(ops) <==> exists op <- ops :: op.BeginOp? && op.id == id && op.file.None?
    ensures forall id <- Unfinished(ops) :: exists op <- ops :: op.BeginOp? && op.id == id && op.file.Some?
  {
    if ops != [] {
      var front, last := ops[..|ops| - 1], ops[|ops| - 1];
      assert BegunOnce(front) by {
        forall i, j | 0 <= i < j < |front| && front[i].BeginOp? && front[j].BeginOp? ensures front[i].id != front[j].id {
          assert front[i] == ops[i] && front[j] == ops[j];
        }
      }
      OrphansHadNoFile(front);
      assert ops == front + [last];
      assert forall op :: op in ops <==> op in front || op == last;
      forall op <- front | op.BeginOp? && last.BeginOp? ensures op.id != last.id {
        var i :| 0 <= i < |front| && front[i] == op;
        assert ops[i] == op;
      }
    }
  }

  /**
   After any run, beginning a new task and finishing it leaves the store as it was if and only if the
   trace file could be read: otherwise the id was never remembered, and finishing does nothing.
   */
  lemma FinishUndoesBegin(log: Log, env: Environment, ops: seq<TaskOp>, id: nat, path: Text, kind: nat, file: Option<TraceFile>)
    requires id !in RunTasks(log, env, ops).world.store
    ensures var after := RunTasks(log, env, ops + [BeginOp(id, path, kind, file), FinishOp(id)]);
            after.world.store == RunTasks(log, env, ops).world.store <==> file.Some?
  {
    hide Process, Sessions.Destroy, Unfinished, Orphans;
    var begin, finish := BeginOp(id, path, kind, file), FinishOp(id);
    var begun, all := ops + [begin], ops + [begin, finish];
    assert all[..|all| - 1] == begun && begun[..|begun| - 1] == ops;
    var t := RunTasks(log, env, ops);
    SessionsLeftBehind(log, env, ops);
    assert id !in t.remembered;
    if file.Some? {
      var s := Process(Fresh(id, path), t.world.log, env, kind, file.value).session;
      assert t.world.store[id := s] - {id} == t.world.store;
    } else {
      BeginAddsItsId(t.world, env, id, path, kind, file);
      assert RunTasks(log, env, all) == RunTasks(log, env, begun);
    }
  }

  class ReadAheadTasks {
    const sessionManager: SessionManager
    var readAheadFileMap: map<nat, Text>
    var traceCookie: nat

    constructor (sessionManager: SessionManager)
      ensures this.sessionManager == sessionManager && readAheadFileMap == map[] && traceCookie == 0
    {
      this.sessionManager := sessionManager;
      readAheadFileMap, traceCookie := map[], 0;
    }

    ghost function State(): Tasks
      reads this, sessionManager, sessionManager.sessionsMap.Values, sessionManager.kernel
    {
      Tasks(sessionManager.World(), readAheadFileMap)
    }

    // `file` is what opening the trace at `path` yields; the result is the number of bytes prefetched.
    method BeginTask(id: nat, path: Text, kind: nat, file: Option<TraceFile>) returns (lengthSum: nat)
      requires sessionManager.Valid() && id !in sessionManager.sessionsMap
      modifies this, sessionManager, sessionManager.kernel
      ensures sessionManager.Valid() && traceCookie == old(traceCookie) + 1
      ensures State() == Step(old(State()), sessionManager.kernel.env, BeginOp(id, path, kind, file))
      ensures lengthSum == if file.Some? then LengthSum(file.value.list) else 0
    {
      hide Begin, Process, LengthSum;
      traceCookie := traceCookie + 1;
      BeginUnfold(sessionManager.World(), sessionManager.kernel.env, id, path, kind, file);
      if file.None? {
        var _ := sessionManager.CreateSession(id, path);
        return 0;
      }
      lengthSum := PrefetchInNewSession(id, path, kind, file.value);
      readAheadFileMap := readAheadFileMap[id := path];
    }

    method PrefetchInNewSession(id: nat, path: Text, kind: nat, file: TraceFile) returns (lengthSum: nat)
      requires sessionManager.Valid() && id !in sessionManager.sessionsMap
      modifies sessionManager, sessionManager.kernel
      ensures sessionManager.Valid() && lengthSum == LengthSum(file.list)
      ensures sessionManager.World() ==
              Begin(old(sessionManager.World()), sessionManager.kernel.env, id, path, kind, Some(file))
    {
      hide Process, LengthSum, Fresh;
      var session := sessionManager.CreateSession(id, path);
      label created:
      lengthSum := Prefetch(session, kind, file);
      sessionManager.OneSessionChanged@created(id);
      CreatedThenChanged(old(sessionManager.World()), sessionManager.kernel.env, id, path, session.Abs());
    }

    // Registers every file of the index, then reads every range of the list ahead.
    method Prefetch(session: SessionDirect, kind: nat, file: TraceFile) returns (lengthSum: nat)
      modifies session, session.kernel
      ensures var o := Process(old(session.Abs()), old(session.kernel.log), session.kernel.env, kind, file);
              session.Abs() == o.session && session.kernel.log == o.log
      ensures lengthSum == LengthSum(file.list)
    {
      hide Register, Sessions.ReadAhead;
      var index, list := file.index, file.list;
      for i := 0 to |index|
        invariant Outcome(session.Abs(), session.kernel.log, true) ==
                  RegisterAll(old(session.Abs()), old(session.kernel.log), session.kernel.env, index[..i])
      {
        assert index[..i + 1][..i] == index[..i];
        if index[i].id >= 0 {
          var _ := session.RegisterFilePath(index[i].id, index[i].fileName);
        }
      }
      assert index[..|index|] == index;
      ghost var start, startLog := session.Abs(), session.kernel.log;
      lengthSum := 0;
      for i := 0 to |list|
        invariant Outcome(session.Abs(), session.kernel.log, true) ==
                  ReadAheadAll(start, startLog, session.kernel.env, kind, list[..i])
        invariant lengthSum == LengthSum(list[..i])
      {
        assert list[..i + 1][..i] == list[..i];
        if !Legal(list[i]) {
          continue;
        }
        var _ := session.ReadAhead(AsSize(list[i].indexId), kind, list[i].fileLength, list[i].fileOffset);
        lengthSum := (lengthSum + list[i].fileLength) % 0x1_0000_0000_0000_0000;
      }
      assert list[..|list|] == list;
    }

    method FinishTask(id: nat)
      requires sessionManager.Valid()
      modifies this, sessionManager, sessionManager.kernel, sessionManager.sessionsMap.Values
      ensures sessionManager.Valid()
      ensures State() == Step(old(State()), sessionManager.kernel.env, FinishOp(id))
    {
      if id !in readAheadFileMap {
        return;
      }
      var _ := sessionManager.DestroySession(id);
      readAheadFileMap := readAheadFileMap - {id};
    }
  }
}
