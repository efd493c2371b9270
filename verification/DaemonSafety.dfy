/** What holds of the daemon after any input at all: well-formed or not, however it is cut. */
module DaemonSafety {
  import opened Codec
  import opened Reassembly
  import opened SystemCalls
  import opened Stores
  import opened Daemon
  import opened Refinement

  lemma {:induction false} ServeAllSound(s: Served, env: Environment, commands: seq<Command>)
    requires Orders(env) && WorldSound(s.world, env)
    ensures WorldSound(ServeAll(s, env, commands).world, env)
  {
    if commands != [] {
      hide WorldSound, Apply, CallOf;
      var before, last := ServeAll(s, env, commands[..|commands| - 1]), commands[|commands| - 1];
      ServeAllSound(s, env, commands[..|commands| - 1]);
      if CallOf(last).Some? {
        ApplySound(before.world, env, CallOf(last).value);
      }
    }
  }

  lemma {:induction false} TakeAllSound(st: DaemonState, env: Environment, useSockets: bool, inputs: seq<Input>)
    requires Orders(env) && WorldSound(st.served.world, env)
    ensures WorldSound(TakeAll(st, env, useSockets, inputs).served.world, env)
  {
    if inputs != [] {
      hide WorldSound, ServeAll, Drain, Attach;
      var before := TakeAll(st, env, useSockets, inputs[..|inputs| - 1]);
      TakeAllSound(st, env, useSockets, inputs[..|inputs| - 1]);
      match inputs[|inputs| - 1] {
        case Data(bytes, fd) =>
          var d := Drain(before.rest + bytes);
          var commands :=
            if useSockets then Attach(d.commands, before.fds + FdOf(Datagram(bytes, fd))).0 else d.commands;
          ServeAllSound(before.served, env, commands);
        case _ =>
      }
    }
  }

  /**
   Whatever the daemon reads, when its store goes away every region mapped for any session has been
   unmapped exactly as often, and every file opened has been closed or was abandoned by registering
   a registered path again.
   */
  lemma DaemonReleasesEverything(env: Environment, useSockets: bool, inputs: seq<Input>)
    requires Orders(env)
    ensures var w := TakeAll(Start(World(map[], [])), env, useSockets, inputs).served.world;
            var last := Shutdown(w, env);
            last.store == map[] &&
            (forall r: Region :: MapBalance(last.log, r) == 0) &&
            forall d: Descriptor | 0 <= d.fd :: FdBalance(last.log, d) == Leaks(last.log, d)
  {
    hide MapBalance, FdBalance, Leaks, TakeAll;
    var start := World(map[], []);
    EmptyWorldSound(env);
    TakeAllSound(Start(start), env, useSockets, inputs);
    ShutdownReleases(TakeAll(Start(start), env, useSockets, inputs).served.world, env);
  }

  /**
   Passed descriptors do not leak: while the daemon runs, those closed so far followed by those
   waiting for their command are exactly those received, in order.
   */
  lemma PassedDescriptorsAreClosed(w: World, env: Environment, datagrams: seq<Datagram>)
    requires !Receive(datagrams).fatal
    ensures var st := TakeAll(Start(w), env, true, DataInputs(datagrams));
            st.served.status.Running? ==> st.served.closed + st.fds == FdsOf(datagrams)
  {
    hide TakeAll, Receive, ServeAll;
    SocketDaemonServes(w, env, datagrams);
    DescriptorsConserved(datagrams);
    ClosedAreAttached(Served(w, [], Running), env, Receive(datagrams).commands);
  }

  lemma {:induction false} ClosedAreAttached(s: Served, env: Environment, commands: seq<Command>)
    ensures var after := ServeAll(s, env, commands);
            after.status.Running? ==> after.closed == s.closed + Attached(commands)
  {
    if commands != [] {
      hide Dispatch, Carried;
      var front, last := commands[..|commands| - 1], commands[|commands| - 1];
      ClosedAreAttached(s, env, front);
      assert commands == front + [last];
      AttachedAppend(front, [last]);
      assert Attached([last]) == Carried(last) by { assert [last][1..] == []; }
    }
  }
}
