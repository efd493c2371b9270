/**
 The client side of the prefetcher: indirect sessions and their manager turn every call into a
 command, serialize it into a 1024-byte buffer and write it to the daemon.
 */
module Client {
  import opened Wrappers
  import opened Bytes
  import opened Codec
  import opened CommandCodec
  import opened Reassembly
  import opened SessionResources
  import opened Stores

  // What a client does: calls on sessions, dumps, and ending the daemon with its manager.
  datatype Action =
    | Ask(call: Call)
    | DumpOne(sid: nat)
    | DumpAll
    | Quit

  const SEND_BUFFER_SIZE: nat := 1024

  // size_t to uint32_t.
  function Narrow32(n: nat): uint32 {
    n % 0x1_0000_0000
  }

  // A size_t is 64 bits wide.
  function Narrow64(n: nat): uint64 {
    n % 0x1_0000_0000_0000_0000
  }

  // Indirect sessions cannot process a descriptor themselves.
  predicate Remote(action: Action) {
    action.Ask? && action.call.OnSession? ==> !action.call.op.ProcessFdOp?
  }

  function CommandFor(action: Action): Command
    requires Remote(action)
  {
    var blank := Command(Exit, 0, 0, None, 0, 0, 0, None);
    match action
    case Ask(Create(sid, description)) =>
      blank.(choice := CreateSession, sessionId := Narrow32(sid), filePath := Some(description))
    case Ask(CreateFromFd(sid, description, fd)) =>
      blank.(choice := CreateFdSession, sessionId := Narrow32(sid), filePath := Some(description), fd := Some(fd))
    case Ask(Destroy(sid)) => blank.(choice := DestroySession, sessionId := Narrow32(sid))
    case Ask(OnSession(sid, RegisterOp(pathId, filePath))) =>
      blank.(choice := RegisterFilePath, sessionId := Narrow32(sid), id := Narrow32(pathId), filePath := Some(filePath))
    case Ask(OnSession(sid, UnregisterOp(pathId))) =>
      blank.(choice := UnregisterFilePath, sessionId := Narrow32(sid), id := Narrow32(pathId))
    case Ask(OnSession(sid, ReadAheadOp(pathId, kind, length, offset))) =>
      blank.(choice := Codec.ReadAhead, sessionId := Narrow32(sid), id := Narrow32(pathId),
             kind := Narrow32(kind), length := Narrow64(length), offset := Narrow64(offset))
    case DumpOne(sid) => blank.(choice := DumpSession, sessionId := Narrow32(sid))
    case DumpAll => blank.(choice := DumpEverything)
    case Quit => blank
  }

  function CommandsFor(actions: seq<Action>): seq<Command>
    requires forall a <- actions :: Remote(a)
  {
    seq(|actions|, i requires 0 <= i < |actions| => CommandFor(actions[i]))
  }

  // The action with every number cut to the width it has on the wire.
  function Narrowed(action: Action): Action
    requires Remote(action)
  {
    match action
    case Ask(Create(sid, description)) => Ask(Create(Narrow32(sid), description))
    case Ask(CreateFromFd(sid, description, fd)) => Ask(CreateFromFd(Narrow32(sid), description, fd))
    case Ask(Destroy(sid)) => Ask(Destroy(Narrow32(sid)))
    case Ask(OnSession(sid, RegisterOp(pathId, filePath))) =>
      Ask(OnSession(Narrow32(sid), RegisterOp(Narrow32(pathId), filePath)))
    case Ask(OnSession(sid, UnregisterOp(pathId))) => Ask(OnSession(Narrow32(sid), UnregisterOp(Narrow32(pathId))))
    case Ask(OnSession(sid, ReadAheadOp(pathId, kind, length, offset))) =>
      Ask(OnSession(Narrow32(sid), ReadAheadOp(Narrow32(pathId), Narrow32(kind), Narrow64(length), Narrow64(offset))))
    case DumpOne(sid) => DumpOne(Narrow32(sid))
    case DumpAll => DumpAll
    case Quit => Quit
  }

  function NarrowedAll(actions: seq<Action>): seq<Action>
    requires forall a <- actions :: Remote(a)
  {
    seq(|actions|, i requires 0 <= i < |actions| => Narrowed(actions[i]))
  }

  // A command longer than the send buffer is refused.
  predicate Fits(action: Action)
    requires Remote(action)
  {
    |Encode(CommandFor(action))| <= SEND_BUFFER_SIZE
  }

  // One write per command; a descriptor travels beside the bytes.
  function MessageFor(action: Action): Datagram
    requires Remote(action)
  {
    Datagram(Encode(CommandFor(action)), CommandFor(action).fd)
  }

  function MessagesFor(actions: seq<Action>): seq<Datagram>
    requires forall a <- actions :: Remote(a)
  {
    seq(|actions|, i requires 0 <= i < |actions| => MessageFor(actions[i]))
  }

  // The session ids a client has created and not destroyed.
  function LiveSessions(actions: seq<Action>): set<nat> {
    if actions == [] then {} else
    var before := LiveSessions(actions[..|actions| - 1]);
    match actions[|actions| - 1]
    case Ask(Create(sid, _)) => before + {sid}
    case Ask(CreateFromFd(sid, _, _)) => before + {sid}
    case Ask(Destroy(sid)) => before - {sid}
    case _ => before
  }

  // What accepting one more action adds to the messages, and which sessions stay live.
  lemma Accepting(accepted: seq<Action>, action: Action)
    requires Remote(action)
    ensures Serializable(CommandFor(action))
    ensures MessageFor(action) == Datagram(Encode(CommandFor(action)), CommandFor(action).fd)
    ensures LiveSessions(accepted) - (if action.Ask? && action.call.Destroy? then {action.call.sid} else {}) <=
            LiveSessions(accepted + [action])
  {
    hide Encode;
    assert (accepted + [action])[..|accepted|] == accepted;
  }

  class SessionManagerIndirect {
    var sessions: set<nat>
    var messages: seq<Datagram>
    ghost var accepted: seq<Action>

    constructor ()
      ensures Valid() && sessions == {} && accepted == []
    {
      sessions, messages, accepted := {}, [], [];
    }

    // Everything written is the encoding of the actions accepted so far, in order, and every
    // session the client still holds has been created at the daemon and not destroyed there.
    ghost predicate Valid()
      reads this
    {
      (forall a <- accepted :: Remote(a) && Fits(a)) &&
      messages == MessagesFor(accepted) &&
      sessions <= LiveSessions(accepted)
    }

    // `writes` is whether write(2) or sendmsg(2) succeeds.
    method SendCommand(ghost action: Action, command: Command, writes: bool) returns (ok: bool)
      requires Valid() && Remote(action) && command == CommandFor(action)
      requires action.Ask? && action.call.Destroy? ==> action.call.sid !in sessions
      modifies this
      ensures Valid() && sessions == old(sessions)
      ensures ok <==> Fits(action) && writes
      ensures accepted == if ok then old(accepted) + [action] else old(accepted)
    {
      hide Encode, LiveSessions, CommandFor, MessageFor;
      Accepting(accepted, action);
      var buf := new byte[SEND_BUFFER_SIZE](_ => 0);
      var wrote, produced := Write(command, buf);
      if !wrote || !writes {
        return false;
      }
      messages := messages + [Datagram(buf[..produced], command.fd)];
      accepted := accepted + [action];
      return true;
    }

    // A failure to send kills the client.
    method CreateSession(sid: nat, description: Text, writes: bool) returns (ok: bool)
      requires Valid() && sid !in sessions
      modifies this
      ensures Valid()
      ensures ok <==> Fits(Ask(Create(sid, description))) && writes
      ensures accepted == if ok then old(accepted) + [Ask(Create(sid, description))] else old(accepted)
      ensures sessions == if ok then old(sessions) + {sid} else old(sessions)
    {
      ghost var action := Ask(Create(sid, description));
      var command := Command(Choice.CreateSession, Narrow32(sid), 0, Some(description), 0, 0, 0, None);
      ok := SendCommand(action, command, writes);
      if ok {
        assert accepted[..|accepted| - 1] == old(accepted);
        sessions := sessions + {sid};
      }
    }

    // A session that hands its trace file over as a descriptor.
    method CreateFdSession(sid: nat, description: Text, fd: int, writes: bool) returns (ok: bool)
      requires Valid() && sid !in sessions
      modifies this
      ensures Valid()
      ensures ok <==> Fits(Ask(CreateFromFd(sid, description, fd))) && writes
      ensures accepted == if ok then old(accepted) + [Ask(CreateFromFd(sid, description, fd))] else old(accepted)
      ensures sessions == if ok then old(sessions) + {sid} else old(sessions)
    {
      ghost var action := Ask(CreateFromFd(sid, description, fd));
      var command := Command(Choice.CreateFdSession, Narrow32(sid), 0, Some(description), 0, 0, 0, Some(fd));
      ok := SendCommand(action, command, writes);
      if ok {
        assert accepted[..|accepted| - 1] == old(accepted);
        sessions := sessions + {sid};
      }
    }

    /**
     The session is forgotten even when the daemon could not be told. `last` is whether the manager held
     the last reference to the session: its destructor tells the daemon, now or when a holder lets go.
     */
    method DestroySession(sid: nat, last: bool, writes: bool) returns (ok: bool)
      requires Valid()
      modifies this
      ensures Valid()
      ensures ok <==> sid in old(sessions)
      ensures accepted == if ok && last && writes then old(accepted) + [Ask(Destroy(sid))] else old(accepted)
      ensures sessions == old(sessions) - {sid}
    {
      if sid !in sessions {
        return false;
      }
      sessions := sessions - {sid};
      if last {
        LetGo(sid, writes);
      }
      return true;
    }

    // The destructor of a session that has left the manager.
    method LetGo(sid: nat, writes: bool)
      requires Valid() && sid !in sessions
      modifies this
      ensures Valid() && sessions == old(sessions)
      ensures accepted == if writes then old(accepted) + [Ask(Destroy(sid))] else old(accepted)
    {
      var command := Command(Choice.DestroySession, Narrow32(sid), 0, None, 0, 0, 0, None);
      var _ := SendCommand(Ask(Destroy(sid)), command, writes);
    }

    // The calls of a session, which its holder can still make after the manager has forgotten it.
    method RegisterFilePath(sid: nat, pathId: nat, filePath: Text, writes: bool) returns (ok: bool)
      requires Valid()
      modifies this
      ensures Valid() && sessions == old(sessions)
      ensures var action := Ask(OnSession(sid, RegisterOp(pathId, filePath)));
              (ok <==> Fits(action) && writes) && accepted == if ok then old(accepted) + [action] else old(accepted)
    {
      ghost var action := Ask(OnSession(sid, RegisterOp(pathId, filePath)));
      var command := Command(Choice.RegisterFilePath, Narrow32(sid), Narrow32(pathId), Some(filePath), 0, 0, 0, None);
      ok := SendCommand(action, command, writes);
    }

    method UnregisterFilePath(sid: nat, pathId: nat, writes: bool) returns (ok: bool)
      requires Valid()
      modifies this
      ensures Valid() && sessions == old(sessions) && ok == writes
      ensures accepted == if ok then old(accepted) + [Ask(OnSession(sid, UnregisterOp(pathId)))] else old(accepted)
    {
      var command := Command(Choice.UnregisterFilePath, Narrow32(sid), Narrow32(pathId), None, 0, 0, 0, None);
      ok := SendCommand(Ask(OnSession(sid, UnregisterOp(pathId))), command, writes);
    }

    method ReadAhead(sid: nat, pathId: nat, kind: nat, length: nat, offset: nat, writes: bool) returns (ok: bool)
      requires Valid()
      modifies this
      ensures Valid() && sessions == old(sessions) && ok == writes
      ensures var action := Ask(OnSession(sid, ReadAheadOp(pathId, kind, length, offset)));
              accepted == if ok then old(accepted) + [action] else old(accepted)
    {
      var command := Command(Choice.ReadAhead, Narrow32(sid), Narrow32(pathId), None,
                             Narrow32(kind), Narrow64(length), Narrow64(offset), None);
      ok := SendCommand(Ask(OnSession(sid, ReadAheadOp(pathId, kind, length, offset))), command, writes);
    }

    method Dump(writes: bool)
      requires Valid()
      modifies this
      ensures Valid() && sessions == old(sessions)
      ensures accepted == if writes then old(accepted) + [DumpAll] else old(accepted)
    {
      var _ := SendCommand(DumpAll, Command(DumpEverything, 0, 0, None, 0, 0, 0, None), writes);
    }

    // The destructor asks the daemon to exit.
    method Close(writes: bool) returns (ok: bool)
      requires Valid()
      modifies this
      ensures Valid() && sessions == old(sessions) && ok == writes
      ensures accepted == if writes then old(accepted) + [Quit] else old(accepted)
    {
      ok := SendCommand(Quit, Command(Exit, 0, 0, None, 0, 0, 0, None), writes);
    }
  }
}
