/**
 The daemon implements the sessions its clients hold: serialising every call, cutting the byte
 stream anywhere, parsing it back and dispatching it comes to making the calls directly.
 */
module Refinement {
  import opened Wrappers
  import opened Bytes
  import opened Codec
  import opened Reassembly
  import opened SystemCalls
  import opened Sessions
  import opened SessionResources
  import opened Stores
  import opened Daemon
  import opened Client

  /// The direct meaning of what a client does.

  function Act(s: Served, env: Environment, action: Action): Served {
    if !s.status.Running? then s else
    match action
    case Ask(call) =>
      s.(world := Apply(s.world, env, call),
         closed := s.closed + if call.CreateFromFd? then [call.fd] else [])
    case Quit => s.(status := Exited)
    case _ => s
  }

  function ActAll(s: Served, env: Environment, actions: seq<Action>): Served {
    if actions == [] then s else Act(ActAll(s, env, actions[..|actions| - 1]), env, actions[|actions| - 1])
  }

  // Numbers that survive the trip: ids and kinds below 2^32, lengths and offsets below 2^64.
  predicate InRange(action: Action) {
    match action
    case Ask(Create(sid, _)) => sid < 0x1_0000_0000
    case Ask(CreateFromFd(sid, _, _)) => sid < 0x1_0000_0000
    case Ask(Destroy(sid)) => sid < 0x1_0000_0000
    case Ask(OnSession(sid, op)) =>
      sid < 0x1_0000_0000 && (
      match op
      case RegisterOp(pathId, _) => pathId < 0x1_0000_0000
      case UnregisterOp(pathId) => pathId < 0x1_0000_0000
      case ReadAheadOp(pathId, kind, length, offset) =>
        pathId < 0x1_0000_0000 && kind < 0x1_0000_0000 &&
        length < 0x1_0000_0000_0000_0000 && offset < 0x1_0000_0000_0000_0000
      case ProcessFdOp(_) => true)
    case DumpOne(sid) => sid < 0x1_0000_0000
    case _ => true
  }

  // Numbers are cut exactly when they are out of range.
  lemma NarrowingIsExact(action: Action)
    requires Remote(action)
    ensures Narrowed(action) == action <==> InRange(action)
  {
  }

  lemma InRangeUnchanged(actions: seq<Action>)
    requires forall a <- actions :: Remote(a)
    ensures (forall a <- actions :: InRange(a)) ==> NarrowedAll(actions) == actions
  {
    hide Narrowed, InRange;
    forall i | 0 <= i < |actions| ensures Narrowed(actions[i]) == actions[i] <==> InRange(actions[i]) {
      NarrowingIsExact(actions[i]);
    }
  }

  // Any two ids that differ only above bit 31 are one session to the daemon, but two when called directly.
  lemma WideIdsCollide(env: Environment, a: nat, b: nat, x: Text, y: Text)
    requires a != b && Narrow32(a) == Narrow32(b)
    ensures var actions := [Ask(Create(a, x)), Ask(Create(b, y))];
            var start := Served(World(map[], []), [], Running);
            ActAll(start, env, actions).world.store.Keys == {a, b} &&
            ActAll(start, env, NarrowedAll(actions)).world.store.Keys == {Narrow32(a)}
  {
    hide Narrow32;
    var start := Served(World(map[], []), [], Running);
    var one, two := Ask(Create(a, x)), Ask(Create(b, y));
    ActTwice(start, env, one, two);
    ActTwice(start, env, Narrowed(one), Narrowed(two));
    assert NarrowedAll([one, two]) == [Narrowed(one), Narrowed(two)];
    assert Act(start, env, one).world.store.Keys == {a};
    assert Act(start, env, Narrowed(one)).world.store.Keys == {Narrow32(a)};
  }

  lemma ActTwice(s: Served, env: Environment, one: Action, two: Action)
    ensures ActAll(s, env, [one, two]) == Act(Act(s, env, one), env, two)
  {
    hide Act;
    assert [one, two][..1] == [one] && [one][..0] == [];
    assert ActAll(s, env, [one]) == Act(s, env, one);
  }

  // A session that has one path, whose file could not be opened.
  function OnePath(sid: nat, pathId: nat): Session {
    Session(sid, [], map[pathId := []], map[pathId := -1], map[])
  }

  // A store on which an action out of range shows.
  function Telltale(action: Action): World {
    match action
    case Ask(Destroy(sid)) => World(map[sid := Fresh(sid, [])], [])
    case Ask(OnSession(sid, UnregisterOp(pathId))) => World(map[sid := OnePath(sid, pathId)], [])
    case Ask(OnSession(sid, ReadAheadOp(pathId, _, _, _))) => World(map[sid := OnePath(sid, pathId)], [])
    case Ask(OnSession(sid, _)) => World(map[sid := Fresh(sid, [])], [])
    case _ => World(map[], [])
  }

  lemma TelltaleShows(env: Environment, action: Action)
    requires Remote(action) && action.Ask? && !InRange(action)
    ensures var s := Served(Telltale(action), [], Running); Act(s, env, action) != Act(s, env, Narrowed(action))
  {
    hide Narrow32, Narrow64, ProcessFd, Sessions.Destroy;
    NarrowingIsExact(action);
    var s := Served(Telltale(action), [], Running);
    match action.call {
      case Create(sid, _) =>
        assert sid in Act(s, env, action).world.store;
      case CreateFromFd(sid, _, _) =>
        assert sid in Act(s, env, action).world.store;
      case Destroy(sid) =>
        assert sid !in Act(s, env, action).world.store && sid in Act(s, env, Narrowed(action)).world.store;
      case OnSession(sid, op) => TelltaleSession(env, sid, op);
    }
  }

  lemma TelltaleSession(env: Environment, sid: nat, op: Op)
    requires var action := Ask(OnSession(sid, op)); Remote(action) && Narrowed(action) != action
    ensures var action := Ask(OnSession(sid, op)); var w := Telltale(action);
            Apply(w, env, action.call).store != Apply(w, env, Narrowed(action).call).store
  {
    hide Narrow32, Narrow64;
    var action := Ask(OnSession(sid, op));
    var w := Telltale(action);
    var direct := Apply(w, env, action.call).store[sid];
    match op {
      case RegisterOp(pathId, _) => assert pathId in direct.fds;
      case UnregisterOp(pathId) => assert pathId !in direct.fds && pathId in w.store[sid].fds;
      case ReadAheadOp(pathId, kind, length, offset) =>
        assert direct.entries[pathId] == [EntryMapping(Entry(pathId, kind, length, offset), NULL, false)];
    }
    if Narrow32(sid) == sid {
      var remote := Apply(w, env, Narrowed(action).call).store[sid];
      match op {
        case RegisterOp(pathId, _) => assert remote.fds.Keys == {Narrow32(pathId)};
        case UnregisterOp(pathId) => assert pathId in remote.fds;
        case ReadAheadOp(pathId, kind, length, offset) =>
          assert pathId in remote.entries ==>
                   remote.entries[pathId] == [EntryMapping(Entry(pathId, Narrow32(kind), Narrow64(length), Narrow64(offset)), NULL, false)];
      }
    } else {
      assert Apply(w, env, Narrowed(action).call).store == w.store;
    }
  }

  // A call acts at the daemon as it does directly, on every store, if and only if it is in range.
  lemma ActsAlikeIffInRange(env: Environment, action: Action)
    requires Remote(action) && action.Ask?
    ensures InRange(action) <==>
            forall w: World :: Act(Served(w, [], Running), env, action) == Act(Served(w, [], Running), env, Narrowed(action))
  {
    hide Act, Narrowed, InRange;
    NarrowingIsExact(action);
    if !InRange(action) {
      TelltaleShows(env, action);
      assert Act(Served(Telltale(action), [], Running), env, action) !=
             Act(Served(Telltale(action), [], Running), env, Narrowed(action));
    }
  }

  // A command as the daemon's parser hands it to the daemon, descriptor included.
  function Delivered(action: Action): Command
    requires Remote(action)
  {
    Wire(CommandFor(action)).(fd := CommandFor(action).fd)
  }

  function DeliveredAll(actions: seq<Action>): seq<Command>
    requires forall a <- actions :: Remote(a)
  {
    seq(|actions|, i requires 0 <= i < |actions| => Delivered(actions[i]))
  }

  lemma ServeIsAct(s: Served, env: Environment, action: Action)
    requires Remote(action)
    ensures Serve(s, env, Delivered(action)) == Act(s, env, Narrowed(action))
  {
    hide Apply;
    var c := Delivered(action);
    assert Carried(c) == if action.Ask? && action.call.CreateFromFd? then [action.call.fd] else [];
    if action.Ask? {
      assert CallOf(c) == Some(Narrowed(action).call);
    }
  }

  lemma {:induction false} ServeAllIsActAll(s: Served, env: Environment, actions: seq<Action>)
    requires forall a <- actions :: Remote(a)
    ensures ServeAll(s, env, DeliveredAll(actions)) == ActAll(s, env, NarrowedAll(actions))
  {
    if actions != [] {
      hide Serve, Act, Delivered, Narrowed;
      var front, last := actions[..|actions| - 1], actions[|actions| - 1];
      ServeAllIsActAll(s, env, front);
      assert DeliveredAll(actions)[..|actions| - 1] == DeliveredAll(front);
      assert NarrowedAll(actions)[..|actions| - 1] == NarrowedAll(front);
      ServeIsAct(ActAll(s, env, NarrowedAll(front)), env, last);
    }
  }

  /// The daemon and its parser.

  function DataInputs(datagrams: seq<Datagram>): seq<Input> {
    seq(|datagrams|, i requires 0 <= i < |datagrams| => Data(datagrams[i].bytes, datagrams[i].fd))
  }

  function PipeInputs(pieces: seq<Text>): seq<Input> {
    seq(|pieces|, i requires 0 <= i < |pieces| => Data(pieces[i], None))
  }

  lemma ServeMore(w: World, env: Environment, commands: seq<Command>, more: seq<Command>)
    ensures var s := ServeAll(Served(w, [], Running), env, commands);
            ServeAll(Served(w, [], Running), env, commands + more) ==
            if s.status.Running? then ServeAll(s, env, more) else s
  {
    var s := ServeAll(Served(w, [], Running), env, commands);
    ServeAllAppend(Served(w, [], Running), env, commands, more);
    if !s.status.Running? {
      StoppedServing(s, env, more);
    }
  }

  // The last of some reads, or messages.
  lemma LastRead(pieces: seq<Text>)
    requires pieces != []
    ensures Reassemble(pieces) == Extend(Reassemble(pieces[..|pieces| - 1]), pieces[|pieces| - 1])
  {
  }

  lemma LastReceived(datagrams: seq<Datagram>)
    requires datagrams != []
    ensures Receive(datagrams) == Next(Receive(datagrams[..|datagrams| - 1]), datagrams[|datagrams| - 1])
  {
  }

  lemma TakeLast(st: DaemonState, env: Environment, useSockets: bool, inputs: seq<Input>)
    requires inputs != []
    ensures TakeAll(st, env, useSockets, inputs) ==
            Take(TakeAll(st, env, useSockets, inputs[..|inputs| - 1]), env, useSockets, inputs[|inputs| - 1])
  {
  }

  // Unless a command is unknown, the daemon serves exactly what its parser makes of the reads.
  lemma {:induction false} PipeDaemonServes(w: World, env: Environment, pieces: seq<Text>)
    requires !Reassemble(pieces).fatal
    ensures var st := TakeAll(Start(w), env, false, PipeInputs(pieces)); var r := Reassemble(pieces);
            st.served == ServeAll(Served(w, [], Running), env, r.commands) &&
            (st.served.status.Running? ==> st.rest == r.rest && st.fds == [])
  {
    if pieces != [] {
      hide ServeAll, Drain, TakeAll, Reassemble;
      var front, last := pieces[..|pieces| - 1], pieces[|pieces| - 1];
      assert PipeInputs(pieces)[..|pieces| - 1] == PipeInputs(front);
      var before := Reassemble(front);
      LastRead(pieces);
      PipeDaemonServes(w, env, front);
      TakeLast(Start(w), env, false, PipeInputs(pieces));
      ServeMore(w, env, before.commands, Drain(before.rest + last).commands);
    } else {
      assert PipeInputs(pieces) == [];
    }
  }

  lemma {:induction false} SocketDaemonServes(w: World, env: Environment, datagrams: seq<Datagram>)
    requires !Receive(datagrams).fatal
    ensures var st := TakeAll(Start(w), env, true, DataInputs(datagrams)); var r := Receive(datagrams);
            st.served == ServeAll(Served(w, [], Running), env, r.commands) &&
            (st.served.status.Running? ==> st.rest == r.rest && st.fds == r.fds)
  {
    if datagrams != [] {
      hide ServeAll, Drain, Attach, TakeAll, Receive;
      var front, last := datagrams[..|datagrams| - 1], datagrams[|datagrams| - 1];
      assert DataInputs(datagrams)[..|datagrams| - 1] == DataInputs(front);
      var before := Receive(front);
      LastReceived(datagrams);
      SocketDaemonServes(w, env, front);
      TakeLast(Start(w), env, true, DataInputs(datagrams));
      assert FdOf(Datagram(last.bytes, last.fd)) == FdOf(last);
      var d := Drain(before.rest + last.bytes);
      ServeMore(w, env, before.commands, Attach(d.commands, before.fds + FdOf(last)).0);
    } else {
      assert DataInputs(datagrams) == [];
    }
  }

  /// The refinement.

  // Every action sent is short enough for its length prefix.
  lemma SentIsEncodable(actions: seq<Action>)
    requires forall a <- actions :: Remote(a) && Fits(a)
    ensures Encodable(CommandsFor(actions))
  {
    hide Encode, CommandFor, Serializable, TextFits;
    forall i | 0 <= i < |actions| ensures Serializable(CommandFor(actions[i])) && TextFits(CommandFor(actions[i])) {
      OneIsEncodable(actions[i]);
    }
  }

  lemma OneIsEncodable(action: Action)
    requires Remote(action) && Fits(action)
    ensures Serializable(CommandFor(action)) && TextFits(CommandFor(action))
  {
    hide Encode;
  }

  // The first `done` actions are exactly those whose commands lie within the first `count` bytes.
  ghost predicate HaveArrived(actions: seq<Action>, done: nat, count: nat)
    requires forall a <- actions :: Remote(a) && Fits(a)
  {
    done <= |actions| && BytesOfFirst(actions, done) <= count && (done < |actions| ==> count < BytesOfFirst(actions, done + 1))
  }

  // How many bytes the first commands take.
  function BytesOfFirst(actions: seq<Action>, n: nat): nat
    requires n <= |actions| && forall a <- actions :: Remote(a)
  {
    if n == 0 then 0 else BytesOfFirst(actions, n - 1) + |Encode(CommandFor(actions[n - 1]))|
  }

  lemma {:induction false} BytesOfFirstEncoded(actions: seq<Action>, n: nat)
    requires n <= |actions| && forall a <- actions :: Remote(a) && Fits(a)
    ensures Encodable(CommandsFor(actions)[..n])
    ensures |EncodeAll(CommandsFor(actions)[..n])| == BytesOfFirst(actions, n)
  {
    hide Encode, CommandFor, Serializable, TextFits, Fits;
    SentIsEncodable(actions);
    var commands := CommandsFor(actions);
    if n > 0 {
      BytesOfFirstEncoded(actions, n - 1);
      assert commands[..n] == commands[..n - 1] + [commands[n - 1]];
      EncodableIsSerializable(commands[..n]);
      EncodeAllAppend(commands[..n - 1], [commands[n - 1]]);
      assert [commands[n - 1]][1..] == [];
    }
  }

  lemma ArrivedExactly(actions: seq<Action>, done: nat, rest: Text)
    requires forall a <- actions :: Remote(a) && Fits(a)
    requires done <= |actions| && Encodable(CommandsFor(actions))
    requires done < |actions| ==> rest < Encode(CommandsFor(actions)[done])
    ensures Encodable(CommandsFor(actions)[..done])
    ensures HaveArrived(actions, done, |EncodeAll(CommandsFor(actions)[..done]) + rest|)
  {
    hide Encode, CommandFor, EncodeAll, Fits, Serializable, TextFits;
    BytesOfFirstEncoded(actions, done);
  }

  /**
   Over a pipe. Whatever part of the written bytes has arrived, in whatever pieces, the daemon is in
   the state that the actions whose bytes have all arrived lead to directly.
   */
  lemma PipeRefinement(w: World, env: Environment, actions: seq<Action>, pieces: seq<Text>) returns (done: nat)
    requires forall a <- actions :: Remote(a) && Fits(a) && !(a.Ask? && a.call.CreateFromFd?)
    requires Flatten(pieces) <= EncodeAll(CommandsFor(actions))
    ensures done <= |actions|
    ensures TakeAll(Start(w), env, false, PipeInputs(pieces)).served ==
            ActAll(Served(w, [], Running), env, NarrowedAll(actions[..done]))
    ensures (forall a <- actions :: InRange(a)) ==> NarrowedAll(actions[..done]) == actions[..done]
    ensures HaveArrived(actions, done, |Flatten(pieces)|)
    ensures Flatten(pieces) == EncodeAll(CommandsFor(actions)) ==> done == |actions|
  {
    hide HaveArrived, ServeAll, ActAll, TakeAll, Encode, Fits, EncodeAll, CommandFor, Serializable, TextFits, Reassemble, Flatten;
    SentIsEncodable(actions);
    done := StreamIsReassembled(CommandsFor(actions), pieces);
    PipeDaemonServes(w, env, pieces);
    var first := actions[..done];
    PipeDelivers(actions, done);
    ArrivedExactly(actions, done, Reassemble(pieces).rest);
    ServeAllIsActAll(Served(w, [], Running), env, first);
    InRangeUnchanged(first);
  }

  lemma PipeDelivers(actions: seq<Action>, done: nat)
    requires done <= |actions|
    requires forall a <- actions :: Remote(a) && !(a.Ask? && a.call.CreateFromFd?)
    ensures WireAll(CommandsFor(actions)[..done]) == DeliveredAll(actions[..done])
  {
  }

  // Commands that agree but for their descriptors, and carry the same ones in the same places, agree.
  lemma {:induction false} PairedUniquely(a: seq<Command>, b: seq<Command>)
    requires WithoutFds(a) == WithoutFds(b) && Attached(a) == Attached(b)
    requires forall c <- a :: c.fd.Some? <==> RequiresFd(c)
    requires forall c <- b :: c.fd.Some? <==> RequiresFd(c)
    ensures a == b
  {
    if a != [] {
      assert |a| == |WithoutFds(a)| == |b|;
      assert a[0].(fd := None) == WithoutFds(a)[0] == b[0].(fd := None);
      assert WithoutFds(a[1..]) == WithoutFds(a)[1..] && WithoutFds(b[1..]) == WithoutFds(b)[1..];
      assert Carried(a[0]) == Attached(a)[..|Carried(a[0])|] == Carried(b[0]);
      assert Attached(a[1..]) == Attached(a)[|Carried(a[0])|..];
      assert Attached(b[1..]) == Attached(b)[|Carried(b[0])|..];
      PairedUniquely(a[1..], b[1..]);
      assert a == [a[0]] + a[1..] && b == [b[0]] + b[1..];
    }
  }

  /**
   Over a socket, whose kernel keeps bytes and descriptors in order and never delivers the end of a
   command before the descriptor that was sent with it.
   */
  lemma SocketRefinement(w: World, env: Environment, actions: seq<Action>, datagrams: seq<Datagram>)
    returns (done: nat)
    requires forall a <- actions :: Remote(a) && Fits(a)
    requires Flatten(BytesOf(datagrams)) <= EncodeAll(CommandsFor(actions))
    requires FdsOf(datagrams) <= Attached(DeliveredAll(actions)) && Timely(datagrams)
    ensures done <= |actions|
    ensures TakeAll(Start(w), env, true, DataInputs(datagrams)).served ==
            ActAll(Served(w, [], Running), env, NarrowedAll(actions[..done]))
    ensures (forall a <- actions :: InRange(a)) ==> NarrowedAll(actions[..done]) == actions[..done]
    ensures HaveArrived(actions, done, |Flatten(BytesOf(datagrams))|)
    ensures Flatten(BytesOf(datagrams)) == EncodeAll(CommandsFor(actions)) ==> done == |actions|
  {
    hide HaveArrived, ServeAll, ActAll, TakeAll, Encode, Fits, EncodeAll, Timely, Receive, Reassemble;
    SentIsEncodable(actions);
    done := StreamIsReassembled(CommandsFor(actions), BytesOf(datagrams));
    DescriptorsDoNotParse(datagrams);
    SocketDaemonServes(w, env, datagrams);
    SocketDelivers(actions, datagrams, done);
    ArrivedExactly(actions, done, Reassemble(BytesOf(datagrams)).rest);
    ServeAllIsActAll(Served(w, [], Running), env, actions[..done]);
    InRangeUnchanged(actions[..done]);
  }

  // The parser hands out the first actions' commands, each with its own descriptor.
  lemma SocketDelivers(actions: seq<Action>, datagrams: seq<Datagram>, done: nat)
    requires forall a <- actions :: Remote(a)
    requires done <= |actions| && !Receive(datagrams).fatal
    requires WithoutFds(Receive(datagrams).commands) == WireAll(CommandsFor(actions)[..done])
    requires FdsOf(datagrams) <= Attached(DeliveredAll(actions)) && Timely(datagrams)
    ensures Receive(datagrams).commands == DeliveredAll(actions[..done])
  {
    hide Receive, Timely, Attached, Creations, RequiresFd, CommandFor;
    var commands, first := Receive(datagrams).commands, DeliveredAll(actions[..done]);
    DescriptorsDoNotParse(datagrams);
    PairingIsInOrder(datagrams);
    assert WithoutFds(first) == WireAll(CommandsFor(actions)[..done]);
    SameCreations(commands, first);
    DeliveredPaired(actions);
    DeliveredPaired(actions[..done]);
    SameFds(commands, first, datagrams, DeliveredAll(actions[done..])) by {
      assert DeliveredAll(actions) == first + DeliveredAll(actions[done..]);
    }
    AllPairedBoth(commands);
    PairedUniquely(commands, first);
  }

  lemma AllPairedBoth(commands: seq<Command>)
    requires AllPaired(commands) && forall c <- commands :: c.fd.Some? ==> RequiresFd(c)
    ensures forall c <- commands :: c.fd.Some? <==> RequiresFd(c)
  {
  }

  lemma DeliveredPaired(actions: seq<Action>)
    requires forall a <- actions :: Remote(a)
    ensures forall c <- DeliveredAll(actions) :: c.fd.Some? <==> RequiresFd(c)
  {
  }

  lemma SameFds(commands: seq<Command>, first: seq<Command>, datagrams: seq<Datagram>, later: seq<Command>)
    requires !Receive(datagrams).fatal && commands == Receive(datagrams).commands
    requires |Creations(commands)| == |Creations(first)|
    requires AllPaired(commands) && forall c <- commands :: c.fd.Some? ==> RequiresFd(c)
    requires AllPaired(first) && forall c <- first :: c.fd.Some? ==> RequiresFd(c)
    requires FdsOf(datagrams) <= Attached(first + later)
    ensures Attached(commands) == Attached(first)
  {
    hide Receive, Attached, Creations, RequiresFd;
    DescriptorsConserved(datagrams);
    AttachedAppend(first, later);
    AttachedAreCreations(commands);
    AttachedAreCreations(first);
    var n, all := |Attached(first)|, Attached(first) + Attached(later);
    assert Attached(commands) == FdsOf(datagrams)[..n] == all[..n];
  }

  // Every session created and not destroyed is in the store, and no other.
  lemma {:induction false} LiveWhenDirect(env: Environment, actions: seq<Action>)
    requires forall a <- actions :: !a.Quit?
    ensures var s := ActAll(Served(World(map[], []), [], Running), env, actions);
            s.status.Running? && s.world.store.Keys == LiveSessions(actions)
  {
    if actions != [] {
      hide Perform, ProcessFd, Sessions.Destroy;
      LiveWhenDirect(env, actions[..|actions| - 1]);
    }
  }

  // At a daemon on a pipe, likewise, for the actions whose bytes have arrived.
  lemma LiveOverAPipe(env: Environment, actions: seq<Action>, pieces: seq<Text>) returns (done: nat)
    requires forall a <- actions :: Remote(a) && Fits(a) && InRange(a) && !a.Quit? && !(a.Ask? && a.call.CreateFromFd?)
    requires Flatten(pieces) <= EncodeAll(CommandsFor(actions))
    ensures HaveArrived(actions, done, |Flatten(pieces)|)
    ensures TakeAll(Start(World(map[], [])), env, false, PipeInputs(pieces)).served.world.store.Keys ==
            LiveSessions(actions[..done])
  {
    hide HaveArrived, TakeAll, ActAll, Flatten, EncodeAll, CommandsFor, Fits, InRange, LiveSessions;
    done := PipeRefinement(World(map[], []), env, actions, pieces);
    assert done <= |actions|;
    LiveWhenDirect(env, actions[..done]);
  }

  // And at a daemon on a socket, sessions created from a descriptor included.
  lemma LiveAtTheDaemon(env: Environment, actions: seq<Action>, datagrams: seq<Datagram>) returns (done: nat)
    requires forall a <- actions :: Remote(a) && Fits(a) && InRange(a) && !a.Quit?
    requires Flatten(BytesOf(datagrams)) <= EncodeAll(CommandsFor(actions))
    requires FdsOf(datagrams) <= Attached(DeliveredAll(actions)) && Timely(datagrams)
    ensures HaveArrived(actions, done, |Flatten(BytesOf(datagrams))|)
    ensures TakeAll(Start(World(map[], [])), env, true, DataInputs(datagrams)).served.world.store.Keys ==
            LiveSessions(actions[..done])
  {
    hide HaveArrived, TakeAll, ActAll, Flatten, EncodeAll, CommandsFor, Fits, InRange, LiveSessions, Timely, Attached;
    done := SocketRefinement(World(map[], []), env, actions, datagrams);
    assert done <= |actions|;
    LiveWhenDirect(env, actions[..done]);
  }

  /// The client's messages are such a stream.

  lemma {:induction false} EncodeAllAppend(front: seq<Command>, back: seq<Command>)
    requires forall c <- front + back :: Serializable(c)
    ensures (forall c <- front :: Serializable(c)) && forall c <- back :: Serializable(c)
    ensures EncodeAll(front + back) == EncodeAll(front) + EncodeAll(back)
  {
    hide Encode, Serializable;
    assert forall c <- front :: c in front + back;
    assert forall c <- back :: c in front + back;
    if front == [] {
      assert front + back == back;
    } else {
      assert (front + back)[1..] == front[1..] + back;
      EncodeAllAppend(front[1..], back);
    }
  }

  lemma EncodableIsSerializable(commands: seq<Command>)
    requires Encodable(commands)
    ensures forall c <- commands :: Serializable(c)
  {
  }

  lemma LastCommand(actions: seq<Action>)
    requires actions != [] && forall a <- actions :: Remote(a)
    ensures var front, last := actions[..|actions| - 1], actions[|actions| - 1];
            CommandsFor(actions) == CommandsFor(front) + [CommandFor(last)]
  {
    hide CommandFor;
  }

  lemma LastDelivered(actions: seq<Action>)
    requires actions != [] && forall a <- actions :: Remote(a)
    ensures var front, last := actions[..|actions| - 1], actions[|actions| - 1];
            DeliveredAll(actions) == DeliveredAll(front) + [Delivered(last)]
  {
    hide Delivered;
  }

  lemma LastMessage(actions: seq<Action>)
    requires actions != [] && forall a <- actions :: Remote(a)
    ensures var front, last := actions[..|actions| - 1], actions[|actions| - 1];
            MessagesFor(actions) == MessagesFor(front) + [MessageFor(last)] &&
            BytesOf(MessagesFor(actions)) == BytesOf(MessagesFor(front)) + [Encode(CommandFor(last))]
  {
    hide CommandFor, Encode;
  }

  lemma FlattenLast(pieces: seq<Text>, piece: Text)
    ensures Flatten(pieces + [piece]) == Flatten(pieces) + piece
  {
    assert (pieces + [piece])[..|pieces|] == pieces;
  }

  lemma FdsLast(datagrams: seq<Datagram>, datagram: Datagram)
    ensures FdsOf(datagrams + [datagram]) == FdsOf(datagrams) + FdOf(datagram)
  {
    assert (datagrams + [datagram])[..|datagrams|] == datagrams;
  }

  // What the client has written is the stream of its commands.
  lemma {:induction false} MessagesAreTheStream(actions: seq<Action>)
    requires forall a <- actions :: Remote(a) && Fits(a)
    ensures Encodable(CommandsFor(actions))
    ensures Flatten(BytesOf(MessagesFor(actions))) == EncodeAll(CommandsFor(actions))
  {
    SentIsEncodable(actions);
    if actions != [] {
      hide Encode, Fits, EncodeAll, CommandFor, Serializable, TextFits, CommandsFor, MessagesFor, BytesOf, Flatten;
      var front, last := actions[..|actions| - 1], actions[|actions| - 1];
      MessagesAreTheStream(front);
      LastMessage(actions);
      LastCommand(actions);
      FlattenLast(BytesOf(MessagesFor(front)), Encode(CommandFor(last)));
      EncodableIsSerializable(CommandsFor(actions));
      EncodeAllAppend(CommandsFor(front), [CommandFor(last)]);
      OneCommand(last);
    }
  }

  // The descriptors beside it are those of its commands.
  lemma {:induction false} MessagesCarryTheFds(actions: seq<Action>)
    requires forall a <- actions :: Remote(a)
    ensures FdsOf(MessagesFor(actions)) == Attached(DeliveredAll(actions))
  {
    if actions != [] {
      hide CommandFor, Attached, Delivered, MessageFor, MessagesFor, DeliveredAll, FdsOf;
      var front, last := actions[..|actions| - 1], actions[|actions| - 1];
      MessagesCarryTheFds(front);
      LastMessage(actions);
      LastDelivered(actions);
      FdsLast(MessagesFor(front), MessageFor(last));
      AttachedAppend(DeliveredAll(front), [Delivered(last)]);
      OneCommand(last);
    }
  }

  lemma OneCommand(action: Action)
    requires Remote(action)
    ensures EncodeAll([CommandFor(action)]) == Encode(CommandFor(action))
    ensures Attached([Delivered(action)]) == FdOf(MessageFor(action))
  {
    hide Encode, CommandFor;
    assert [CommandFor(action)][1..] == [] && [Delivered(action)][1..] == [];
  }

  // A socket that keeps message boundaries delivers every descriptor in time.
  lemma UnbrokenMessagesAreTimely(actions: seq<Action>)
    requires forall a <- actions :: Remote(a) && Fits(a)
    ensures Timely(MessagesFor(actions))
  {
    hide Encode, Fits, EncodeAll, CommandFor, Attached, Creations, Reassemble, FdsOf, Flatten;
    forall k | 0 <= k <= |actions|
      ensures |Creations(Reassemble(BytesOf(MessagesFor(actions)[..k])).commands)| <= |FdsOf(MessagesFor(actions)[..k])|
    {
      var first := actions[..k];
      assert MessagesFor(actions)[..k] == MessagesFor(first);
      MessagesAreTheStream(first);
      MessagesCarryTheFds(first);
      var whole := StreamIsReassembled(CommandsFor(first), BytesOf(MessagesFor(first)));
      assert WireAll(CommandsFor(first)) == WithoutFds(DeliveredAll(first));
      assert CommandsFor(first)[..whole] == CommandsFor(first);
      var commands := Reassemble(BytesOf(MessagesFor(first))).commands;
      assert WithoutFds(commands) == commands;
      SameCreations(commands, DeliveredAll(first));
      DeliveredPaired(first);
      AllPairedCount(DeliveredAll(first));
    }
  }

  lemma AllPairedCount(commands: seq<Command>)
    requires forall c <- commands :: c.fd.Some? <==> RequiresFd(c)
    ensures |Attached(commands)| == |Creations(commands)|
  {
    AttachedAreCreations(commands);
  }

  lemma {:induction false} SameCreations(a: seq<Command>, b: seq<Command>)
    requires WithoutFds(a) == WithoutFds(b)
    ensures |Creations(a)| == |Creations(b)|
  {
    if a != [] {
      assert |a| == |WithoutFds(a)| == |b|;
      assert a[0].(fd := None) == WithoutFds(a)[0] == b[0].(fd := None);
      assert WithoutFds(a[1..]) == WithoutFds(a)[1..] && WithoutFds(b[1..]) == WithoutFds(b)[1..];
      SameCreations(a[1..], b[1..]);
    } else {
      assert |a| == |WithoutFds(a)| == |b|;
    }
  }
}
