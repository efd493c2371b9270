/**
 What every run of calls on a session keeps, and that destroying the session gives everything back:
 each mapped region is unmapped exactly once and each stored descriptor is closed exactly once.
 */
module SessionResources {
  import opened Bytes
  import opened TraceFiles
  import opened SystemCalls
  import opened Sessions

  // The three maps agree on the paths they know.
  ghost predicate Consistent(s: Session, env: Environment) {
    s.paths.Keys == s.fds.Keys &&
    (forall id | id in s.entries && s.entries[id] != [] :: id in s.paths) &&
    (env.dchecks ==> s.paths.Keys <= s.entries.Keys)
  }

  predicate Holds(m: EntryMapping, r: Region) {
    Maps(m.entry.kind) && IsRegion(r.address) && m.address == r.address && m.entry.length == r.length
  }

  function Count(list: seq<EntryMapping>, r: Region): nat {
    if list == [] then 0 else Count(list[..|list| - 1], r) + if Holds(list[|list| - 1], r) then 1 else 0
  }

  // How often a session records a region as mapped and not yet unmapped.
  function HeldRegions(s: Session, r: Region): nat {
    if r.owner.session == s.id then Count(EntriesOf(s, r.owner.path), r) else 0
  }

  function HeldFds(s: Session, d: Descriptor): nat {
    if d.owner.session == s.id && d.owner.path in s.fds && s.fds[d.owner.path] == d.fd && 0 <= d.fd then 1 else 0
  }

  // The kernel's view of the session's resources is the session's own.
  ghost predicate Accounted(s: Session, log: Log) {
    (forall r: Region | r.owner.session == s.id :: MapBalance(log, r) == HeldRegions(s, r)) &&
    forall d: Descriptor | d.owner.session == s.id && 0 <= d.fd ::
      FdBalance(log, d) == HeldFds(s, d) + Leaks(log, d)
  }

  // No resource of another session was touched.
  ghost predicate Private(before: Log, after: Log, session: nat) {
    (forall r: Region | r.owner.session != session :: MapBalance(after, r) == MapBalance(before, r)) &&
    forall d: Descriptor | d.owner.session != session ::
      FdBalance(after, d) == FdBalance(before, d) && Leaks(after, d) == Leaks(before, d)
  }

  ghost predicate Sound(s: Session, log: Log, env: Environment) {
    Consistent(s, env) && Accounted(s, log)
  }

  /// The system calls.

  lemma {:induction false} UnmapAllBalance(log: Log, env: Environment, owner: Owner, list: seq<EntryMapping>)
    ensures var after := UnmapAll(log, env, owner, list);
            (forall r :: MapBalance(after, r) == MapBalance(log, r) - if r.owner == owner then Count(list, r) else 0) &&
            forall d :: FdBalance(after, d) == FdBalance(log, d) && Leaks(after, d) == Leaks(log, d)
  {
    if list != [] {
      var last := list[|list| - 1];
      UnmapAllBalance(log, env, owner, list[..|list| - 1]);
      var before := UnmapAll(log, env, owner, list[..|list| - 1]);
      var request := Munmap(last.address, last.entry.length);
      BalanceLast(before, Called(owner, request, env.answer(before, request)));
    }
  }

  lemma AttemptBalance(log: Log, env: Environment, owner: Owner, fd: int, entry: Entry)
    ensures var (mapping, after) := Attempt(log, env, owner, fd, entry);
            mapping.entry == entry &&
            (forall r :: MapBalance(after, r) ==
                         MapBalance(log, r) + if r.owner == owner && Holds(mapping, r) then 1 else 0) &&
            forall d :: FdBalance(after, d) == FdBalance(log, d) && Leaks(after, d) == Leaks(log, d)
  {
    if entry.kind == FADVISE {
      var request := Fadvise(fd, entry.offset, entry.length);
      BalanceLast(log, Called(owner, request, env.answer(log, request)));
    } else if Maps(entry.kind) {
      var request := Mmap(fd, entry.length, entry.offset, entry.kind == MMAP_LOCKED);
      var (log1, address) := Call(log, env, owner, request);
      BalanceLast(log, Called(owner, request, address));
      var lock := Mlock(address, entry.length);
      BalanceLast(log1, Called(owner, lock, env.answer(log1, lock)));
    }
  }

  lemma CloseBalance(log: Log, env: Environment, owner: Owner, fd: int)
    ensures var after := CloseFd(log, env, owner, fd);
            (forall r :: MapBalance(after, r) == MapBalance(log, r)) &&
            (forall d :: Leaks(after, d) == Leaks(log, d)) &&
            forall d :: FdBalance(after, d) ==
                        FdBalance(log, d) - if d == Descriptor(owner, fd) && 0 <= fd then 1 else 0
  {
    BalanceLast(log, Called(owner, Close(fd), env.answer(log, Close(fd))));
  }

  /// Each call keeps the invariant.

  lemma RegisterSound(s: Session, log: Log, env: Environment, pathId: nat, filePath: Text)
    requires Sound(s, log, env)
    ensures var o := Register(s, log, env, pathId, filePath);
            o.session.id == s.id && Sound(o.session, o.log, env) && Private(log, o.log, s.id)
  {
    hide MapBalance, FdBalance, Leaks, Count;
    var owner := Owner(s.id, pathId);
    var (log1, result) := Call(log, env, owner, OpenFile(filePath));
    BalanceLast(log, Called(owner, OpenFile(filePath), result));
    BalanceLast(log1, Abandoned(owner, result));
    var o := Register(s, log, env, pathId, filePath);
    assert forall id :: EntriesOf(o.session, id) == EntriesOf(s, id);
  }

  lemma UnregisterSound(s: Session, log: Log, env: Environment, pathId: nat)
    requires Sound(s, log, env)
    ensures var o := Unregister(s, log, env, pathId);
            o.session.id == s.id && Sound(o.session, o.log, env) && Private(log, o.log, s.id)
  {
    if pathId in s.paths {
      hide MapBalance, FdBalance, Leaks;
      var owner := Owner(s.id, pathId);
      var log1 := UnmapAll(log, env, owner, EntriesOf(s, pathId));
      UnmapAllBalance(log, env, owner, EntriesOf(s, pathId));
      CloseBalance(log1, env, owner, s.fds[pathId]);
      var o := Unregister(s, log, env, pathId);
      assert forall id :: EntriesOf(o.session, id) == if id == pathId then [] else EntriesOf(s, id);
    }
  }

  // A path's list grows by one entry, whose mapping the log accounts for.
  lemma EntryAddedSound(s: Session, log: Log, after: Log, env: Environment, pathId: nat, m: EntryMapping)
    requires Sound(s, log, env) && pathId in s.fds
    requires forall r :: MapBalance(after, r) ==
                         MapBalance(log, r) + if r.owner == Owner(s.id, pathId) && Holds(m, r) then 1 else 0
    requires forall d :: FdBalance(after, d) == FdBalance(log, d) && Leaks(after, d) == Leaks(log, d)
    ensures var s' := s.(entries := s.entries[pathId := EntriesOf(s, pathId) + [m]]);
            Sound(s', after, env) && Private(log, after, s.id)
  {
    hide MapBalance, FdBalance, Leaks, Holds;
    var list := EntriesOf(s, pathId);
    var s' := s.(entries := s.entries[pathId := list + [m]]);
    assert (list + [m])[..|list|] == list;
    forall r ensures HeldRegions(s', r) == HeldRegions(s, r) + if r.owner == Owner(s.id, pathId) && Holds(m, r) then 1 else 0 {
    }
  }

  lemma ReadAheadSound(s: Session, log: Log, env: Environment, pathId: nat, kind: nat, length: nat, offset: nat)
    requires Sound(s, log, env)
    ensures var o := ReadAhead(s, log, env, pathId, kind, length, offset);
            o.session.id == s.id && Sound(o.session, o.log, env) && Private(log, o.log, s.id)
  {
    hide MapBalance, FdBalance, Leaks, Attempt, Sound, Private, Holds;
    var entry, owner := Entry(pathId, kind, length, offset), Owner(s.id, pathId);
    if pathId !in s.fds {
      ListTouchedSound(s, log, env, pathId);
    } else if s.fds[pathId] < 0 {
      NullHoldsNothing(entry);
      EntryAddedSound(s, log, log, env, pathId, EntryMapping(entry, NULL, false));
    } else {
      var (m, after) := Attempt(log, env, owner, s.fds[pathId], entry);
      AttemptBalance(log, env, owner, s.fds[pathId], entry);
      EntryAddedSound(s, log, after, env, pathId, m);
    }
  }

  lemma NullHoldsNothing(entry: Entry)
    ensures forall r :: !Holds(EntryMapping(entry, NULL, false), r)
  {
  }

  // Looking an unknown path up leaves an empty list behind.
  lemma ListTouchedSound(s: Session, log: Log, env: Environment, pathId: nat)
    requires Sound(s, log, env) && pathId !in s.fds
    ensures Sound(s.(entries := s.entries[pathId := EntriesOf(s, pathId)]), log, env) && Private(log, log, s.id)
  {
    hide MapBalance, FdBalance, Leaks, Count;
    var s' := s.(entries := s.entries[pathId := EntriesOf(s, pathId)]);
    assert forall id :: EntriesOf(s', id) == EntriesOf(s, id);
  }

  /// Runs.

  datatype Op =
    | RegisterOp(pathId: nat, filePath: Text)
    | UnregisterOp(pathId: nat)
    | ReadAheadOp(pathId: nat, kind: nat, length: nat, offset: nat)
    | ProcessFdOp(fd: int)

  function Perform(s: Session, log: Log, env: Environment, op: Op): Outcome {
    match op
    case RegisterOp(pathId, filePath) => Register(s, log, env, pathId, filePath)
    case UnregisterOp(pathId) => Unregister(s, log, env, pathId)
    case ReadAheadOp(pathId, kind, length, offset) => ReadAhead(s, log, env, pathId, kind, length, offset)
    case ProcessFdOp(fd) => ProcessFd(s, log, env, fd)
  }

  function Run(s: Session, log: Log, env: Environment, ops: seq<Op>): Outcome {
    if ops == [] then Outcome(s, log, true) else
    var before := Run(s, log, env, ops[..|ops| - 1]);
    Perform(before.session, before.log, env, ops[|ops| - 1])
  }

  lemma {:induction false} RegisterAllSound(s: Session, log: Log, env: Environment, index: seq<IndexEntry>)
    requires Sound(s, log, env)
    ensures var o := RegisterAll(s, log, env, index);
            o.session.id == s.id && Sound(o.session, o.log, env) && Private(log, o.log, s.id)
  {
    hide Register, Sound;
    if index != [] {
      var before, last := RegisterAll(s, log, env, index[..|index| - 1]), index[|index| - 1];
      RegisterAllSound(s, log, env, index[..|index| - 1]);
      if 0 <= last.id {
        RegisterSound(before.session, before.log, env, last.id, last.fileName);
      }
    }
  }

  lemma {:induction false} ReadAheadAllSound(s: Session, log: Log, env: Environment, kind: nat, list: seq<FileEntry>)
    requires Sound(s, log, env)
    ensures var o := ReadAheadAll(s, log, env, kind, list);
            o.session.id == s.id && Sound(o.session, o.log, env) && Private(log, o.log, s.id)
  {
    hide ReadAhead, Sound;
    if list != [] {
      var before, last := ReadAheadAll(s, log, env, kind, list[..|list| - 1]), list[|list| - 1];
      ReadAheadAllSound(s, log, env, kind, list[..|list| - 1]);
      if Legal(last) {
        ReadAheadSound(before.session, before.log, env, AsSize(last.indexId), kind, last.fileLength, last.fileOffset);
      }
    }
  }

  lemma PerformSound(s: Session, log: Log, env: Environment, op: Op)
    requires Sound(s, log, env)
    ensures var o := Perform(s, log, env, op);
            o.session.id == s.id && Sound(o.session, o.log, env) && Private(log, o.log, s.id)
  {
    hide Register, Unregister, ReadAhead, Sound;
    match op {
      case RegisterOp(pathId, filePath) => RegisterSound(s, log, env, pathId, filePath);
      case UnregisterOp(pathId) => UnregisterSound(s, log, env, pathId);
      case ReadAheadOp(pathId, kind, length, offset) => ReadAheadSound(s, log, env, pathId, kind, length, offset);
      case ProcessFdOp(fd) =>
        var file := env.trace(log, fd);
        if file.Some? {
          RegisterAllSound(s, log, env, file.value.index);
          var registered := RegisterAll(s, log, env, file.value.index);
          ReadAheadAllSound(registered.session, registered.log, env, FADVISE, file.value.list);
        }
    }
  }

  lemma {:induction false} RunSound(s: Session, log: Log, env: Environment, ops: seq<Op>)
    requires Sound(s, log, env)
    ensures var o := Run(s, log, env, ops);
            o.session.id == s.id && Sound(o.session, o.log, env) && Private(log, o.log, s.id)
  {
    hide Perform, Sound;
    if ops != [] {
      var before := Run(s, log, env, ops[..|ops| - 1]);
      RunSound(s, log, env, ops[..|ops| - 1]);
      PerformSound(before.session, before.log, env, ops[|ops| - 1]);
    }
  }

  /// Destruction.

  function Elements(ids: seq<nat>): set<nat> {
    set id | id in ids
  }

  lemma {:induction false} UnregisterAllSound(s: Session, log: Log, env: Environment, ids: seq<nat>)
    requires Sound(s, log, env)
    ensures var o := UnregisterAll(s, log, env, ids);
            o.session.id == s.id && Sound(o.session, o.log, env) && Private(log, o.log, s.id) &&
            o.session.paths.Keys == s.paths.Keys - Elements(ids)
  {
    hide Sound;
    if ids != [] {
      var before := UnregisterAll(s, log, env, ids[..|ids| - 1]);
      UnregisterAllSound(s, log, env, ids[..|ids| - 1]);
      UnregisterSound(before.session, before.log, env, ids[|ids| - 1]);
      assert ids == ids[..|ids| - 1] + [ids[|ids| - 1]];
      assert Elements(ids) == Elements(ids[..|ids| - 1]) + {ids[|ids| - 1]};
    }
  }

  ghost predicate Distinct(ids: seq<nat>) {
    forall i, j | 0 <= i < j < |ids| :: ids[i] != ids[j]
  }

  lemma {:induction false} CloseAllBalance(s: Session, log: Log, env: Environment, ids: seq<nat>)
    requires Distinct(ids)
    ensures var after := CloseAll(s, log, env, ids);
            (forall r :: MapBalance(after, r) == MapBalance(log, r)) &&
            (forall d :: Leaks(after, d) == Leaks(log, d)) &&
            forall d :: FdBalance(after, d) == FdBalance(log, d) - if d.owner.path in ids then HeldFds(s, d) else 0
  {
    hide MapBalance, FdBalance, Leaks;
    if ids != [] {
      var id := ids[|ids| - 1];
      var before := CloseAll(s, log, env, ids[..|ids| - 1]);
      CloseAllBalance(s, log, env, ids[..|ids| - 1]);
      if id in s.fds {
        CloseBalance(before, env, Owner(s.id, id), s.fds[id]);
      }
      assert ids == ids[..|ids| - 1] + [id];
    }
  }

  /**
   A destroyed session holds nothing: each region it mapped has been unmapped exactly as often, and
   each descriptor it opened has been closed exactly as often unless it was abandoned.
   */
  lemma DestroyReleases(s: Session, log: Log, env: Environment)
    requires Orders(env) && Sound(s, log, env)
    ensures var after := Destroy(s, log, env);
            Private(log, after, s.id) &&
            (forall r: Region | r.owner.session == s.id :: MapBalance(after, r) == 0) &&
            forall d: Descriptor | d.owner.session == s.id && 0 <= d.fd :: FdBalance(after, d) == Leaks(after, d)
  {
    hide MapBalance, FdBalance, Leaks;
    var ids := env.order(log, s.entries.Keys);
    var left := UnregisterAll(s, log, env, ids);
    assert Enumerates(ids, s.entries.Keys);
    UnregisterAllSound(s, log, env, ids);
    var rest := env.order(left.log, left.session.fds.Keys);
    assert Enumerates(rest, left.session.fds.Keys);
    CloseAllBalance(left.session, left.log, env, rest);
    UnregisteredHoldNothing(s, log, env, ids);
  }

  // After unregistering every path with an entry list, no region is held any more.
  lemma UnregisteredHoldNothing(s: Session, log: Log, env: Environment, ids: seq<nat>)
    requires Sound(s, log, env) && Enumerates(ids, s.entries.Keys)
    ensures forall r :: HeldRegions(UnregisterAll(s, log, env, ids).session, r) == 0
  {
    UnregisterAllSound(s, log, env, ids);
    UnregisterAllEntries(s, log, env, ids);
  }

  lemma {:induction false} UnregisterAllEntries(s: Session, log: Log, env: Environment, ids: seq<nat>)
    ensures UnregisterAll(s, log, env, ids).session.entries.Keys <= s.entries.Keys
  {
    if ids != [] {
      UnregisterAllEntries(s, log, env, ids[..|ids| - 1]);
    }
  }

  /**
   The whole life of a session, whatever calls are made on it and whatever the kernel answers: every
   region is unmapped exactly as often as it was mapped, and every descriptor is closed exactly as
   often as it was opened if and only if none was abandoned.
   */
  lemma LifetimeReleases(id: nat, description: Text, log: Log, env: Environment, ops: seq<Op>)
    requires Orders(env) && Sound(Fresh(id, description), log, env)
    ensures var last := Run(Fresh(id, description), log, env, ops); var after := Destroy(last.session, last.log, env);
            Private(log, after, id) &&
            (forall r: Region | r.owner.session == id :: MapBalance(after, r) == 0) &&
            forall d: Descriptor | d.owner.session == id && 0 <= d.fd ::
              FdBalance(after, d) == 0 <==> Leaks(after, d) == 0
  {
    hide MapBalance, FdBalance, Leaks;
    RunSound(Fresh(id, description), log, env, ops);
    var last := Run(Fresh(id, description), log, env, ops);
    DestroyReleases(last.session, last.log, env);
  }

  /// When descriptors leak.

  ghost predicate NoLeak(before: Log, after: Log) {
    forall d :: Leaks(after, d) == Leaks(before, d)
  }

  // Registering abandons a descriptor exactly when the path is registered already and opens again.
  lemma RegisterAbandons(s: Session, log: Log, env: Environment, pathId: nat, filePath: Text)
    ensures NoLeak(log, Register(s, log, env, pathId, filePath).log) <==>
            pathId in s.fds ==> env.answer(log, OpenFile(filePath)) < 0
  {
    hide MapBalance, FdBalance, Leaks;
    var owner := Owner(s.id, pathId);
    var (log1, result) := Call(log, env, owner, OpenFile(filePath));
    BalanceLast(log, Called(owner, OpenFile(filePath), result));
    BalanceLast(log1, Abandoned(owner, result));
    var d := Descriptor(owner, result);
    assert NoLeak(log, log1);
    assert Leaks(log1 + [Abandoned(owner, result)], d) == Leaks(log, d) + 1;
    assert !NoLeak(log, log1 + [Abandoned(owner, result)]);
  }

  // No call of the run registers a path that is registered at that moment.
  ghost predicate Disciplined(s: Session, log: Log, env: Environment, ops: seq<Op>) {
    forall k | 0 <= k < |ops| ::
      var before := Run(s, log, env, ops[..k]);
      match ops[k]
      case RegisterOp(pathId, _) => pathId !in before.session.fds
      case ProcessFdOp(fd) =>
        var file := env.trace(before.log, fd);
        file.Some? ==> FreshIndex(before.session, before.log, env, file.value.index)
      case _ => true
  }

  ghost predicate FreshIndex(s: Session, log: Log, env: Environment, index: seq<IndexEntry>) {
    forall k | 0 <= k < |index| :: 0 <= index[k].id ==> index[k].id !in RegisterAll(s, log, env, index[..k]).session.fds
  }

  lemma {:induction false} RegisterAllNoLeak(s: Session, log: Log, env: Environment, index: seq<IndexEntry>)
    requires FreshIndex(s, log, env, index)
    ensures NoLeak(log, RegisterAll(s, log, env, index).log)
  {
    hide Register, Leaks;
    if index != [] {
      var front, last := index[..|index| - 1], index[|index| - 1];
      forall k | 0 <= k < |front| ensures front[k] == index[k] && front[..k] == index[..k] {
      }
      RegisterAllNoLeak(s, log, env, front);
      var before := RegisterAll(s, log, env, front);
      if 0 <= last.id {
        RegisterAbandons(before.session, before.log, env, last.id, last.fileName);
      }
    }
  }

  lemma ReadAheadNoLeak(s: Session, log: Log, env: Environment, pathId: nat, kind: nat, length: nat, offset: nat)
    ensures NoLeak(log, ReadAhead(s, log, env, pathId, kind, length, offset).log)
  {
    hide Attempt, Leaks;
    if pathId in s.fds {
      AttemptBalance(log, env, Owner(s.id, pathId), s.fds[pathId], Entry(pathId, kind, length, offset));
    }
  }

  lemma {:induction false} ReadAheadAllNoLeak(s: Session, log: Log, env: Environment, kind: nat, list: seq<FileEntry>)
    ensures NoLeak(log, ReadAheadAll(s, log, env, kind, list).log)
  {
    hide ReadAhead, Leaks;
    if list != [] {
      var before, last := ReadAheadAll(s, log, env, kind, list[..|list| - 1]), list[|list| - 1];
      ReadAheadAllNoLeak(s, log, env, kind, list[..|list| - 1]);
      if Legal(last) {
        ReadAheadNoLeak(before.session, before.log, env, AsSize(last.indexId), kind, last.fileLength, last.fileOffset);
      }
    }
  }

  // A run that never registers a registered path abandons nothing, so destruction closes everything.
  lemma {:induction false} DisciplinedRunLeaksNothing(s: Session, log: Log, env: Environment, ops: seq<Op>)
    requires Disciplined(s, log, env, ops)
    ensures NoLeak(log, Run(s, log, env, ops).log)
  {
    hide Register, Unregister, ReadAhead, Leaks;
    if ops != [] {
      var front, last := ops[..|ops| - 1], ops[|ops| - 1];
      forall k | 0 <= k < |front| ensures front[k] == ops[k] && front[..k] == ops[..k] {
      }
      DisciplinedRunLeaksNothing(s, log, env, front);
      var before := Run(s, log, env, front);
      match last {
        case RegisterOp(pathId, filePath) => RegisterAbandons(before.session, before.log, env, pathId, filePath);
        case UnregisterOp(pathId) => UnregisterNoLeak(before.session, before.log, env, pathId);
        case ReadAheadOp(pathId, kind, length, offset) =>
          ReadAheadNoLeak(before.session, before.log, env, pathId, kind, length, offset);
        case ProcessFdOp(fd) =>
          var file := env.trace(before.log, fd);
          if file.Some? {
            RegisterAllNoLeak(before.session, before.log, env, file.value.index);
            var registered := RegisterAll(before.session, before.log, env, file.value.index);
            ReadAheadAllNoLeak(registered.session, registered.log, env, FADVISE, file.value.list);
          }
      }
    }
  }

  lemma UnregisterNoLeak(s: Session, log: Log, env: Environment, pathId: nat)
    ensures NoLeak(log, Unregister(s, log, env, pathId).log)
  {
    hide UnmapAll, CloseFd, Leaks;
    if pathId in s.paths {
      var owner := Owner(s.id, pathId);
      UnmapAllBalance(log, env, owner, EntriesOf(s, pathId));
      if pathId in s.fds {
        CloseBalance(UnmapAll(log, env, owner, EntriesOf(s, pathId)), env, owner, s.fds[pathId]);
      }
    }
  }
}
