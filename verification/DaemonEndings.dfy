/** When the daemon stops, and what it leaves undone. */
module DaemonEndings {
  import opened Wrappers
  import opened Bytes
  import opened Codec
  import opened Reassembly
  import opened SystemCalls
  import opened Daemon
  import opened Client
  import opened Refinement

  // Nothing asked for after the end is done.
  lemma QuitEnds(s: Served, env: Environment, before: seq<Action>, after: seq<Action>)
    requires ActAll(s, env, before).status.Running?
    ensures ActAll(s, env, before + [Quit] + after) == ActAll(s, env, before).(status := Exited)
  {
    hide ActAll;
    ActLast(s, env, before, Quit);
    StoppedActing(s, env, before + [Quit], after);
  }

  lemma ActLast(s: Served, env: Environment, before: seq<Action>, last: Action)
    ensures ActAll(s, env, before + [last]) == Act(ActAll(s, env, before), env, last)
  {
    hide Act;
    assert (before + [last])[..|before|] == before;
  }

  lemma {:induction false} StoppedActing(s: Served, env: Environment, front: seq<Action>, back: seq<Action>)
    requires !ActAll(s, env, front).status.Running?
    ensures ActAll(s, env, front + back) == ActAll(s, env, front)
  {
    if back == [] {
      assert front + back == front;
    } else {
      var all := front + back;
      assert all[..|all| - 1] == front + back[..|back| - 1];
      StoppedActing(s, env, front, back[..|back| - 1]);
    }
  }

  /**
   Among the commands that can be read off the wire, exactly one kills the daemon: the creation of a session
   that does not exist yet from a descriptor that did not come. Exit ends it, and the others keep it running.
   */
  lemma OneCommandIsFatal(s: Served, env: Environment, c: Command)
    requires s.status.Running? && Serializable(c)
    ensures Serve(s, env, c).status ==
            if c.choice == Exit then Exited
            else if c.choice == CreateFdSession && c.fd.None? && c.sessionId !in s.world.store then Died
            else Running
    ensures !Serve(s, env, c).status.Running? ==> Serve(s, env, c).world == s.world
  {
  }

  // A read that fails changes nothing; the end of the input ends the daemon.
  lemma ReadsEnd(st: DaemonState, env: Environment, useSockets: bool)
    requires st.served.status.Running?
    ensures Take(st, env, useSockets, Failed) == st
    ensures Take(st, env, useSockets, EndOfFile) == st.(served := st.served.(status := Exited))
  {
  }

  /**
   An unknown command kills the daemon as soon as it has been read, and none of the commands read together with
   it is carried out, those in front of it included.
   */
  lemma UnknownCommandIsFatal(
    st: DaemonState, env: Environment, useSockets: bool, bytes: Text, fd: Option<int>,
    commands: seq<Command>, number: uint32, more: Text)
    requires st.served.status.Running? && Encodable(commands) && number > 8
    requires st.rest + bytes == EncodeAll(commands) + (LittleEndian(number, 4) + more)
    ensures Take(st, env, useSockets, Data(bytes, fd)) == st.(served := st.served.(status := Died))
  {
    hide EncodeAll, Drain;
    UnknownAfter(commands, number, more);
  }

  lemma {:induction false} UnknownAfter(commands: seq<Command>, number: uint32, more: Text)
    requires Encodable(commands) && number > 8
    ensures Drain(EncodeAll(commands) + (LittleEndian(number, 4) + more)).fatal
    decreases |commands|
  {
    hide Encode, LittleEndian, Drain, Serializable, TextFits, EncodeAll;
    var tail := LittleEndian(number, 4) + more;
    if commands == [] {
      NothingEncoded();
      assert [] + tail == tail;
      UnknownNumber(number, more);
      DrainUnfold(tail);
    } else {
      EncodeAllFirst(commands[0], commands[1..]);
      assert [commands[0]] + commands[1..] == commands;
      var image := Encode(commands[0]);
      var rest := EncodeAll(commands[1..]) + tail;
      assert EncodeAll(commands) + tail == image + rest;
      RoundTrip(commands[0], rest);
      DrainUnfold(image + rest);
      assert (image + rest)[|image|..] == rest;
      UnknownAfter(commands[1..], number, more);
    }
  }

  lemma UnknownNumber(number: uint32, more: Text)
    requires number > 8
    ensures Decode(LittleEndian(number, 4) + more) == Fatal
  {
    hide LittleEndian, U32At;
    U32AtImage([], number, more);
    assert [] + LittleEndian(number, 4) + more == LittleEndian(number, 4) + more;
  }
}
