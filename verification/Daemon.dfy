/**
 The prefetcher daemon: it takes reads from its input until end of file, an exit command or death,
 parses commands out of them and carries each one out on its store of in-process sessions.
 */
module Daemon {
  import opened Wrappers
  import opened Bytes
  import opened Codec
  import opened Reassembly
  import opened SystemCalls
  import opened Sessions
  import opened SessionResources
  import opened Stores
  import opened DirectManager

  // Died stands for a failed CHECK or a fatal log message.
  datatype Status = Running | Exited | Died

  // The daemon between two commands. `closed` lists the passed descriptors closed after use.
  datatype Served = Served(world: World, closed: seq<int>, status: Status)

  // What a command asks of the store; nothing for the others.
  function CallOf(c: Command): Option<Call> {
    match c.choice
    case RegisterFilePath =>
      if c.filePath.Some? then Some(OnSession(c.sessionId, RegisterOp(c.id, c.filePath.value))) else None
    case UnregisterFilePath => Some(OnSession(c.sessionId, UnregisterOp(c.id)))
    case ReadAhead => Some(OnSession(c.sessionId, ReadAheadOp(c.id, c.kind, c.length, c.offset)))
    case CreateSession => if c.filePath.Some? then Some(Create(c.sessionId, c.filePath.value)) else None
    case CreateFdSession =>
      if c.filePath.Some? && c.fd.Some? then Some(CreateFromFd(c.sessionId, c.filePath.value, c.fd.value)) else None
    case DestroySession => Some(Destroy(c.sessionId))
    case Exit | DumpSession | DumpEverything => None
  }

  // A command that reaches a CHECK on a missing text or descriptor.
  predicate FailsCheck(store: map<nat, Session>, c: Command) {
    match c.choice
    case RegisterFilePath => c.sessionId in store && c.filePath.None?
    case CreateSession => c.sessionId !in store && c.filePath.None?
    case CreateFdSession => c.sessionId !in store && (c.filePath.None? || c.fd.None?)
    case _ => false
  }

  function Dispatch(w: World, env: Environment, c: Command): World {
    match CallOf(c)
    case Some(call) => Apply(w, env, call)
    case None => w
  }

  function Serve(s: Served, env: Environment, c: Command): Served {
    if !s.status.Running? then s
    else if c.choice.Exit? then s.(status := Exited)
    else if FailsCheck(s.world.store, c) then s.(status := Died)
    else s.(world := Dispatch(s.world, env, c), closed := s.closed + Carried(c))
  }

  function ServeAll(s: Served, env: Environment, commands: seq<Command>): Served {
    if commands == [] then s
    else Serve(ServeAll(s, env, commands[..|commands| - 1]), env, commands[|commands| - 1])
  }

  // The daemon between two reads.
  datatype DaemonState = DaemonState(served: Served, rest: Text, fds: seq<int>)

  function Take(st: DaemonState, env: Environment, useSockets: bool, input: Input): DaemonState {
    if !st.served.status.Running? then st else
    match input
    case Failed => st
    case EndOfFile => st.(served := st.served.(status := Exited))
    case Data(bytes, fd) =>
      var d := Drain(st.rest + bytes);
      if d.fatal then st.(served := st.served.(status := Died)) else
      var (commands, left) := if useSockets then Attach(d.commands, st.fds + FdOf(Datagram(bytes, fd))) else (d.commands, st.fds);
      DaemonState(ServeAll(st.served, env, commands), d.rest, left)
  }

  function TakeAll(st: DaemonState, env: Environment, useSockets: bool, inputs: seq<Input>): DaemonState {
    if inputs == [] then st
    else Take(TakeAll(st, env, useSockets, inputs[..|inputs| - 1]), env, useSockets, inputs[|inputs| - 1])
  }

  function Start(w: World): DaemonState {
    DaemonState(Served(w, [], Running), [], [])
  }

  lemma {:induction false} ServeAllAppend(s: Served, env: Environment, front: seq<Command>, back: seq<Command>)
    ensures ServeAll(s, env, front + back) == ServeAll(ServeAll(s, env, front), env, back)
  {
    if back == [] {
      assert front + back == front;
    } else {
      var all := front + back;
      assert all[..|all| - 1] == front + back[..|back| - 1];
      ServeAllAppend(s, env, front, back[..|back| - 1]);
    }
  }

  // A daemon that has stopped does nothing more.
  lemma {:induction false} StoppedStays(st: DaemonState, env: Environment, useSockets: bool, inputs: seq<Input>)
    requires !st.served.status.Running?
    ensures TakeAll(st, env, useSockets, inputs) == st
  {
    if inputs != [] {
      StoppedStays(st, env, useSockets, inputs[..|inputs| - 1]);
    }
  }

  class PrefetcherDaemon {
    const kernel: Kernel
    const parser: CommandParser
    const sessionManager: SessionManager
    var closedFds: seq<int>

    constructor (kernel: Kernel)
      ensures this.kernel == kernel && sessionManager.kernel == kernel
      ensures fresh(parser) && fresh(sessionManager) && sessionManager.Valid()
      ensures State(Running) == Start(Stores.World(map[], kernel.log)) && sessionManager.sessionsMap == map[]
    {
      this.kernel := kernel;
      parser := new CommandParser();
      sessionManager := new SessionManager(kernel);
      closedFds := [];
    }

    ghost function State(status: Status): DaemonState
      reads this, parser, sessionManager, sessionManager.sessionsMap.Values, sessionManager.kernel
    {
      DaemonState(Served(sessionManager.World(), closedFds, status), parser.longbuf, parser.longbufFds)
    }

    // Carries out one command; `died` reports a failed CHECK.
    method ReceiveCommand(command: Command) returns (ok: bool, died: bool)
      requires sessionManager.Valid() && sessionManager.kernel == kernel
      modifies sessionManager, kernel, sessionManager.sessionsMap.Values
      ensures sessionManager.Valid()
      ensures forall s <- sessionManager.sessionsMap.Values :: s in old(sessionManager.sessionsMap.Values) || fresh(s)
      ensures died == FailsCheck(old(sessionManager.Abs()), command)
      ensures died ==> sessionManager.World() == old(sessionManager.World())
      ensures !died ==> sessionManager.World() == Dispatch(old(sessionManager.World()), kernel.env, command)
    {
      hide Register, Unregister, Sessions.ReadAhead, Sessions.ProcessFd, Sessions.Destroy;
      ok, died := true, false;
      match command.choice {
        case RegisterFilePath | UnregisterFilePath | ReadAhead =>
          ok, died := ReceiveSessionCommand(command);
        case CreateSession =>
          var session := sessionManager.FindSession(command.sessionId);
          if session != null { return false, false; }
          if command.filePath.None? { return false, true; }
          var _ := sessionManager.CreateSession(command.sessionId, command.filePath.value);
        case DestroySession =>
          ok := sessionManager.DestroySession(command.sessionId);
        case DumpSession =>
          var session := sessionManager.FindSession(command.sessionId);
          ok := session != null;
        case DumpEverything =>
        case CreateFdSession =>
          ok, died := ReceiveFdSession(command);
        case Exit =>
      }
    }

    // The commands addressed to one session.
    method ReceiveSessionCommand(command: Command) returns (ok: bool, died: bool)
      requires sessionManager.Valid() && sessionManager.kernel == kernel
      requires HasId(command.choice)
      modifies kernel, sessionManager.sessionsMap.Values
      ensures sessionManager.Valid()
      ensures died == FailsCheck(old(sessionManager.Abs()), command)
      ensures died ==> sessionManager.World() == old(sessionManager.World())
      ensures !died ==> sessionManager.World() == Dispatch(old(sessionManager.World()), kernel.env, command)
    {
      hide Register, Unregister, Sessions.ReadAhead, Sessions.ProcessFd, Sessions.Destroy;
      var session := sessionManager.FindSession(command.sessionId);
      if session == null {
        return false, false;
      }
      match command.choice {
        case RegisterFilePath =>
          if command.filePath.None? { return false, true; }
          ok := session.RegisterFilePath(command.id, command.filePath.value);
        case UnregisterFilePath =>
          ok := session.UnregisterFilePath(command.id);
        case ReadAhead =>
          ok := session.ReadAhead(command.id, command.kind, command.length, command.offset);
      }
      died := false;
      sessionManager.OneSessionChanged(command.sessionId);
    }

    // Creates a session and processes the trace file behind the passed descriptor.
    method ReceiveFdSession(command: Command) returns (ok: bool, died: bool)
      requires sessionManager.Valid() && sessionManager.kernel == kernel
      requires command.choice.CreateFdSession?
      modifies sessionManager, kernel
      ensures sessionManager.Valid()
      ensures forall s <- sessionManager.sessionsMap.Values :: s in old(sessionManager.sessionsMap.Values) || fresh(s)
      ensures died == FailsCheck(old(sessionManager.Abs()), command)
      ensures died ==> sessionManager.World() == old(sessionManager.World())
      ensures !died ==> sessionManager.World() == Dispatch(old(sessionManager.World()), kernel.env, command)
    {
      hide Sessions.ProcessFd;
      var existing := sessionManager.FindSession(command.sessionId);
      if existing != null { return false, false; }
      if command.filePath.None? || command.fd.None? { return false, true; }
      ok := StartFdSession(command.sessionId, command.filePath.value, command.fd.value);
      died := false;
    }

    method StartFdSession(sid: nat, description: Text, fd: int) returns (ok: bool)
      requires sessionManager.Valid() && sessionManager.kernel == kernel && sid !in sessionManager.sessionsMap
      modifies sessionManager, kernel
      ensures sessionManager.Valid()
      ensures forall s <- sessionManager.sessionsMap.Values :: s in old(sessionManager.sessionsMap.Values) || fresh(s)
      ensures sessionManager.World() == Apply(old(sessionManager.World()), kernel.env, CreateFromFd(sid, description, fd))
    {
      hide Sessions.ProcessFd, Fresh;
      var session := sessionManager.CreateSession(sid, description);
      label created:
      ok := session.ProcessFd(fd);
      sessionManager.OneSessionChanged@created(sid);
      CreatedThenChanged(old(sessionManager.World()), kernel.env, sid, description, session.Abs());
    }

    /**
     Serves reads until the input ends, an exit command arrives or the process dies. A daemon that is
     still running has taken all the reads it was given.
     */
    method MainLoop(useSockets: bool, inputs: seq<Input>) returns (status: Status)
      requires sessionManager.Valid() && sessionManager.kernel == kernel
      requires forall input <- inputs :: input.Data? ==> input.bytes != []
      modifies this, parser, sessionManager, kernel, sessionManager.sessionsMap.Values
      ensures sessionManager.Valid()
      ensures var after := TakeAll(old(State(Running)), kernel.env, useSockets, inputs);
              status == after.served.status && (!status.Died? ==> State(status).served == after.served)
    {
      hide Take, TakeAll;
      StartTaking(State(Running), kernel.env, useSockets, inputs);
      for i := 0 to |inputs|
        invariant sessionManager.Valid()
        invariant forall s <- sessionManager.sessionsMap.Values :: s in old(sessionManager.sessionsMap.Values) || fresh(s)
        invariant State(Running) == TakeAll(old(State(Running)), kernel.env, useSockets, inputs[..i])
      {
        NextInput(old(State(Running)), kernel.env, useSockets, inputs, i);
        status := TakeInput(useSockets, inputs[i]);
        if !status.Running? {
          return;
        }
      }
      assert inputs[..|inputs|] == inputs;
      return Running;
    }

    // Parses what one read brought and serves the commands in it.
    method TakeInput(useSockets: bool, input: Input) returns (status: Status)
      requires sessionManager.Valid() && sessionManager.kernel == kernel
      requires input.Data? ==> input.bytes != []
      modifies this`closedFds, parser, sessionManager, kernel, sessionManager.sessionsMap.Values
      ensures sessionManager.Valid()
      ensures forall s <- sessionManager.sessionsMap.Values :: s in old(sessionManager.sessionsMap.Values) || fresh(s)
      ensures var after := Take(old(State(Running)), kernel.env, useSockets, input);
              status == after.served.status && (!status.Died? ==> State(status).served == after.served) &&
              (status.Running? ==> State(status) == after)
    {
      hide Drain, Attach, ServeAll, Take;
      ghost var before := State(Running);
      TakeOne(before, kernel.env, useSockets, input);
      var commands, eof, fatal := ReadCommands(useSockets, input);
      assert sessionManager.World() == before.served.world;
      if fatal {
        return Died;
      }
      if eof {
        return Exited;
      }
      if commands == [] {
        assert commands[..0] == commands;
        NothingServed(before.served, kernel.env, commands);
      }
      status := ServeCommands(commands);
    }

    // Reads with recvmsg(2) or with read(2).
    method ReadCommands(useSockets: bool, input: Input) returns (commands: seq<Command>, eof: bool, fatal: bool)
      requires input.Data? ==> input.bytes != []
      modifies parser
      ensures eof == input.EndOfFile?
      ensures !input.Data? ==>
                commands == [] && !fatal && parser.longbuf == old(parser.longbuf) && parser.longbufFds == old(parser.longbufFds)
      ensures input.Data? ==>
                var d := Drain(old(parser.longbuf) + input.bytes);
                var taken := if useSockets then Attach(d.commands, old(parser.longbufFds) + FdOf(Datagram(input.bytes, input.fd)))
                             else (d.commands, old(parser.longbufFds));
                fatal == d.fatal &&
                (!fatal ==> commands == taken.0 && parser.longbuf == d.rest && parser.longbufFds == taken.1)
    {
      hide Drain, Attach;
      if useSockets {
        commands, eof, fatal := parser.ParseSocketCommands(input);
      } else {
        commands, eof, fatal := parser.ParseCommands(input);
      }
    }

    // One batch of commands, each followed by closing the descriptor passed with it.
    method ServeCommands(commands: seq<Command>) returns (status: Status)
      requires sessionManager.Valid() && sessionManager.kernel == kernel
      modifies this`closedFds, sessionManager, kernel, sessionManager.sessionsMap.Values
      ensures sessionManager.Valid()
      ensures forall s <- sessionManager.sessionsMap.Values :: s in old(sessionManager.sessionsMap.Values) || fresh(s)
      ensures State(status).served == ServeAll(old(State(Running).served), kernel.env, commands)
    {
      NothingServed(State(Running).served, kernel.env, commands);
      hide Dispatch, FailsCheck, ServeAll;
      for i := 0 to |commands|
        invariant sessionManager.Valid()
        invariant forall s <- sessionManager.sessionsMap.Values :: s in old(sessionManager.sessionsMap.Values) || fresh(s)
        invariant State(Running).served == ServeAll(old(State(Running).served), kernel.env, commands[..i])
      {
        NextCommand(old(State(Running).served), kernel.env, commands, i);
        if commands[i].choice.Exit? {
          StoppedServing(State(Exited).served, kernel.env, commands[i + 1..]);
          return Exited;
        }
        var _, died := ReceiveCommand(commands[i]);
        if died {
          StoppedServing(State(Died).served, kernel.env, commands[i + 1..]);
          return Died;
        }
        if commands[i].fd.Some? {
          closedFds := closedFds + [commands[i].fd.value];
        }
      }
      assert commands[..|commands|] == commands;
      return Running;
    }
  }

  lemma NothingServed(s: Served, env: Environment, commands: seq<Command>)
    ensures ServeAll(s, env, commands[..0]) == s
  {
  }

  // One read, by cases.
  lemma TakeOne(st: DaemonState, env: Environment, useSockets: bool, input: Input)
    requires st.served.status.Running?
    ensures input.Failed? ==> Take(st, env, useSockets, input) == st
    ensures input.EndOfFile? ==> Take(st, env, useSockets, input) == st.(served := st.served.(status := Exited))
    ensures input.Data? ==>
              var d := Drain(st.rest + input.bytes);
              var taken := Attach(d.commands, st.fds + FdOf(Datagram(input.bytes, input.fd)));
              Take(st, env, useSockets, input) ==
              if d.fatal then st.(served := st.served.(status := Died))
              else if useSockets then DaemonState(ServeAll(st.served, env, taken.0), d.rest, taken.1)
              else DaemonState(ServeAll(st.served, env, d.commands), d.rest, st.fds)
  {
    hide Drain, Attach, ServeAll;
  }

  lemma CreatedThenChanged(w: World, env: Environment, sid: nat, description: Text, changed: Session)
    requires sid !in w.store
    ensures Apply(w, env, Create(sid, description)).store[sid := changed] == w.store[sid := changed]
  {
  }

  // What the first i+1 commands, and all of them, come to after the first i.
  lemma NextCommand(s: Served, env: Environment, commands: seq<Command>, i: nat)
    requires i < |commands|
    ensures ServeAll(s, env, commands[..i + 1]) == Serve(ServeAll(s, env, commands[..i]), env, commands[i])
    ensures ServeAll(s, env, commands) == ServeAll(ServeAll(s, env, commands[..i + 1]), env, commands[i + 1..])
  {
    hide Serve;
    assert commands[..i + 1][..i] == commands[..i];
    assert commands == commands[..i + 1] + commands[i + 1..];
    ServeAllAppend(s, env, commands[..i + 1], commands[i + 1..]);
  }

  lemma {:induction false} StoppedServing(s: Served, env: Environment, commands: seq<Command>)
    requires !s.status.Running?
    ensures ServeAll(s, env, commands) == s
  {
    if commands != [] {
      StoppedServing(s, env, commands[..|commands| - 1]);
    }
  }

  // What the first i+1 inputs, and all of them, come to after the first i.
  lemma NextInput(st: DaemonState, env: Environment, useSockets: bool, inputs: seq<Input>, i: nat)
    requires i < |inputs|
    ensures var next := TakeAll(st, env, useSockets, inputs[..i + 1]);
            next == Take(TakeAll(st, env, useSockets, inputs[..i]), env, useSockets, inputs[i]) &&
            (!next.served.status.Running? ==> TakeAll(st, env, useSockets, inputs) == next)
  {
    hide Take;
    assert inputs[..i + 1][..i] == inputs[..i];
    var next := TakeAll(st, env, useSockets, inputs[..i + 1]);
    TakeAllAppend(st, env, useSockets, inputs[..i + 1], inputs[i + 1..]);
    assert inputs == inputs[..i + 1] + inputs[i + 1..];
    if !next.served.status.Running? {
      StoppedStays(next, env, useSockets, inputs[i + 1..]);
    }
  }

  lemma StartTaking(st: DaemonState, env: Environment, useSockets: bool, inputs: seq<Input>)
    ensures TakeAll(st, env, useSockets, inputs[..0]) == st
  {
  }

  lemma {:induction false} TakeAllAppend(
    st: DaemonState, env: Environment, useSockets: bool, front: seq<Input>, back: seq<Input>)
    ensures TakeAll(st, env, useSockets, front + back) ==
            TakeAll(TakeAll(st, env, useSockets, front), env, useSockets, back)
  {
    if back == [] {
      assert front + back == front;
    } else {
      var all := front + back;
      assert all[..|all| - 1] == front + back[..|back| - 1];
      TakeAllAppend(st, env, useSockets, front, back[..|back| - 1]);
    }
  }
}
