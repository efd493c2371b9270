/** Exactly which runs of a session abandon a descriptor. */
module SessionLeaks {
  import opened Bytes
  import opened TraceFiles
  import opened Wrappers
  import opened SystemCalls
  import opened Sessions
  import opened SessionResources

  // Abandoned descriptors stay abandoned, and only open ones are.
  ghost predicate LeaksGrow(before: Log, after: Log) {
    forall d :: Leaks(before, d) <= Leaks(after, d) && (d.fd < 0 ==> Leaks(before, d) == Leaks(after, d))
  }

  lemma GrowingInTurn(a: Log, b: Log, c: Log)
    requires LeaksGrow(a, b) && LeaksGrow(b, c)
    ensures LeaksGrow(a, c) && (NoLeak(a, c) <==> NoLeak(a, b) && NoLeak(b, c))
  {
    hide Leaks;
    if NoLeak(a, c) {
      forall d ensures Leaks(b, d) == Leaks(a, d) && Leaks(c, d) == Leaks(b, d) {
        assert Leaks(a, d) <= Leaks(b, d) <= Leaks(c, d) == Leaks(a, d);
      }
    }
  }

  // A path that is registered already, and whose file opens once more.
  predicate AbandonsOne(s: Session, log: Log, env: Environment, entry: IndexEntry) {
    0 <= entry.id && entry.id in s.fds && 0 <= env.answer(log, OpenFile(entry.fileName))
  }

  ghost predicate AbandonsAt(s: Session, log: Log, env: Environment, index: seq<IndexEntry>, k: nat)
    requires k < |index|
  {
    var before := RegisterAll(s, log, env, index[..k]);
    AbandonsOne(before.session, before.log, env, index[k])
  }

  // The call registers such a path, itself or in the course of a trace file.
  ghost predicate Abandons(s: Session, log: Log, env: Environment, op: Op) {
    match op
    case RegisterOp(pathId, filePath) => AbandonsOne(s, log, env, IndexEntry(pathId, filePath))
    case ProcessFdOp(fd) =>
      var file := env.trace(log, fd);
      file.Some? && exists k | 0 <= k < |file.value.index| :: AbandonsAt(s, log, env, file.value.index, k)
    case _ => false
  }

  lemma RegisterGrows(s: Session, log: Log, env: Environment, pathId: nat, filePath: Text)
    ensures LeaksGrow(log, Register(s, log, env, pathId, filePath).log)
  {
    hide MapBalance, FdBalance, Leaks;
    var owner := Owner(s.id, pathId);
    var (log1, result) := Call(log, env, owner, OpenFile(filePath));
    BalanceLast(log, Called(owner, OpenFile(filePath), result));
    BalanceLast(log1, Abandoned(owner, result));
  }

  lemma {:induction false} RegisterAllLeaksIff(s: Session, log: Log, env: Environment, index: seq<IndexEntry>)
    ensures LeaksGrow(log, RegisterAll(s, log, env, index).log)
    ensures NoLeak(log, RegisterAll(s, log, env, index).log) <==>
            forall k | 0 <= k < |index| :: !AbandonsAt(s, log, env, index, k)
  {
    hide Register, Leaks, AbandonsOne;
    if index != [] {
      var n := |index| - 1;
      var front, last := index[..n], index[n];
      RegisterAllLeaksIff(s, log, env, front);
      var before := RegisterAll(s, log, env, front);
      var after := RegisterAll(s, log, env, index);
      LastLeaksIff(before.session, before.log, env, last);
      GrowingInTurn(log, before.log, after.log);
      forall k | 0 <= k < n ensures AbandonsAt(s, log, env, index, k) == AbandonsAt(s, log, env, front, k) {
        assert front[..k] == index[..k];
      }
      assert AbandonsAt(s, log, env, index, n) == AbandonsOne(before.session, before.log, env, last);
    }
  }

  lemma LastLeaksIff(s: Session, log: Log, env: Environment, entry: IndexEntry)
    ensures var after := if entry.id < 0 then log else Register(s, log, env, entry.id, entry.fileName).log;
            LeaksGrow(log, after) && (NoLeak(log, after) <==> !AbandonsOne(s, log, env, entry))
  {
    hide Register, Leaks;
    if 0 <= entry.id {
      RegisterGrows(s, log, env, entry.id, entry.fileName);
      RegisterAbandons(s, log, env, entry.id, entry.fileName);
    }
  }

  lemma OneLeaksIff(s: Session, log: Log, env: Environment, op: Op)
    ensures var after := Perform(s, log, env, op).log;
            LeaksGrow(log, after) && (NoLeak(log, after) <==> !Abandons(s, log, env, op))
  {
    hide Register, Unregister, ReadAhead, RegisterAll, ReadAheadAll, Leaks, AbandonsAt;
    match op {
      case RegisterOp(pathId, filePath) => LastLeaksIff(s, log, env, IndexEntry(pathId, filePath));
      case UnregisterOp(pathId) => UnregisterNoLeak(s, log, env, pathId);
      case ReadAheadOp(pathId, kind, length, offset) => ReadAheadNoLeak(s, log, env, pathId, kind, length, offset);
      case ProcessFdOp(fd) =>
        var file := env.trace(log, fd);
        if file.Some? {
          RegisterAllLeaksIff(s, log, env, file.value.index);
          var registered := RegisterAll(s, log, env, file.value.index);
          ReadAheadAllNoLeak(registered.session, registered.log, env, FADVISE, file.value.list);
          GrowingInTurn(log, registered.log, Process(s, log, env, FADVISE, file.value).log);
        }
    }
  }

  ghost predicate AbandonsInRun(s: Session, log: Log, env: Environment, ops: seq<Op>, k: nat)
    requires k < |ops|
  {
    var before := Run(s, log, env, ops[..k]);
    Abandons(before.session, before.log, env, ops[k])
  }

  /**
   A run abandons no descriptor if and only if none of its calls registers a path that is registered at
   that moment and opens once more.
   */
  lemma {:induction false} RunLeaksIff(s: Session, log: Log, env: Environment, ops: seq<Op>)
    ensures LeaksGrow(log, Run(s, log, env, ops).log)
    ensures NoLeak(log, Run(s, log, env, ops).log) <==> forall k | 0 <= k < |ops| :: !AbandonsInRun(s, log, env, ops, k)
  {
    hide Perform, Leaks, Abandons;
    if ops != [] {
      var n := |ops| - 1;
      var front, last := ops[..n], ops[n];
      RunLeaksIff(s, log, env, front);
      var before := Run(s, log, env, front);
      OneLeaksIff(before.session, before.log, env, last);
      GrowingInTurn(log, before.log, Run(s, log, env, ops).log);
      forall k | 0 <= k < n ensures AbandonsInRun(s, log, env, ops, k) == AbandonsInRun(s, log, env, front, k) {
        assert front[..k] == ops[..k];
      }
      assert AbandonsInRun(s, log, env, ops, n) == Abandons(before.session, before.log, env, last);
    }
  }

  // Over a whole life, then, the kernel gets every descriptor back exactly in such runs.
  lemma LifetimeReleasesIff(id: nat, description: Text, env: Environment, ops: seq<Op>)
    requires Orders(env)
    ensures var last := Run(Fresh(id, description), [], env, ops);
            (forall d: Descriptor | d.owner.session == id && 0 <= d.fd ::
               FdBalance(Destroy(last.session, last.log, env), d) == 0) <==>
            forall k | 0 <= k < |ops| :: !AbandonsInRun(Fresh(id, description), [], env, ops, k)
  {
    hide Leaks, FdBalance, MapBalance, Run, Destroy, AbandonsInRun, Sound;
    var s := Fresh(id, description);
    StartsSound(id, description, env);
    RunLeaksIff(s, [], env, ops);
    LifetimeReleases(id, description, [], env, ops);
    RunSound(s, [], env, ops);
    var last := Run(s, [], env, ops);
    var after := Destroy(last.session, last.log, env);
    DestroyNoLeak(last.session, last.log, env);
    NothingLeaked();
    if NoLeak([], last.log) {
      forall d: Descriptor | d.owner.session == id && 0 <= d.fd ensures FdBalance(after, d) == 0 {
        assert Leaks(last.log, d) == Leaks([], d);
      }
    } else {
      var d :| Leaks(last.log, d) != Leaks([], d);
      assert d.owner.session == id && 0 <= d.fd;
      assert FdBalance(after, d) != 0;
    }
  }

  lemma NothingLeaked()
    ensures forall d :: Leaks([], d) == 0
  {
  }

  lemma StartsSound(id: nat, description: Text, env: Environment)
    ensures Sound(Fresh(id, description), [], env)
  {
  }

  lemma {:induction false} UnregisterAllNoLeak(s: Session, log: Log, env: Environment, ids: seq<nat>)
    ensures NoLeak(log, UnregisterAll(s, log, env, ids).log)
  {
    if ids != [] {
      hide Unregister, Leaks;
      var before := UnregisterAll(s, log, env, ids[..|ids| - 1]);
      UnregisterAllNoLeak(s, log, env, ids[..|ids| - 1]);
      UnregisterNoLeak(before.session, before.log, env, ids[|ids| - 1]);
    }
  }

  lemma DestroyNoLeak(s: Session, log: Log, env: Environment)
    requires Orders(env)
    ensures NoLeak(log, Destroy(s, log, env))
  {
    hide UnregisterAll, CloseAll, Leaks, MapBalance, FdBalance;
    var ids := env.order(log, s.entries.Keys);
    var left := UnregisterAll(s, log, env, ids);
    UnregisterAllNoLeak(s, log, env, ids);
    var rest := env.order(left.log, left.session.fds.Keys);
    assert Enumerates(rest, left.session.fds.Keys);
    CloseAllBalance(left.session, left.log, env, rest);
  }

  // It happens: every open yields descriptor 3, and one path is registered twice.
  lemma LeakExample(order: (Log, set<nat>) -> seq<nat>) returns (env: Environment, ops: seq<Op>)
    ensures env.order == order
    ensures var d := Descriptor(Owner(0, 1), 3); Leaks(Run(Fresh(0, []), [], env, ops).log, d) == 1
  {
    env := Environment((_, _) => 3, order, (_, _) => None, false);
    ops := [RegisterOp(1, []), RegisterOp(1, [])];
    assert ops[..1] == [RegisterOp(1, [])] && ops[..1][..0] == [];
    var s0, open := Fresh(0, []), Called(Owner(0, 1), OpenFile([]), 3);
    assert Run(s0, [], env, []) == Outcome(s0, [], true);
    var first := Run(s0, [], env, ops[..1]);
    assert first == Register(s0, [], env, 1, []);
    assert [] + [open] == [open];
    assert first.session.fds == map[1 := 3] && first.log == [open];
    var log := Run(s0, [], env, ops).log;
    assert log == Register(first.session, first.log, env, 1, []).log;
    assert log == [open] + [open] + [Abandoned(Owner(0, 1), 3)];
    var d := Descriptor(Owner(0, 1), 3);
    BalanceLast([], open);
    BalanceLast([open], open);
    BalanceLast([open] + [open], Abandoned(Owner(0, 1), 3));
  }
}
