/** Whether a session's reports of success are true: what each recorded entry says about the calls made for it. */
module SessionReports {
  import opened Bytes
  import opened TraceFiles
  import opened Wrappers
  import opened SystemCalls
  import opened Sessions
  import opened SessionResources

  /// One call.

  /**
   A mapping read-ahead reports a region exactly if there is one, for MmapLocked, if and only if mmap did
   not fail, since its result is compared with null; and, for Mlock, if and only if mlock succeeded on a
   region and failed on anything else that is not null.
   */
  lemma FailedMmapReported(s: Session, log: Log, env: Environment, pathId: nat, kind: nat, length: nat, offset: nat)
    requires Maps(kind) && pathId in s.fds && 0 <= s.fds[pathId]
    ensures var o := ReadAhead(s, log, env, pathId, kind, length, offset);
            var (log1, address) := Call(log, env, Owner(s.id, pathId), Mmap(s.fds[pathId], length, offset, kind == MMAP_LOCKED));
            (o.ok <==> IsRegion(address)) <==>
            if kind == MMAP_LOCKED then address != MAP_FAILED
            else address == NULL || (address != MAP_FAILED <==> 0 <= env.answer(log1, Mlock(address, length)))
  {
  }

  /// Every entry of every run.

  // The k-th event of the log is the given call made for the path, with its result.
  predicate Made(log: Log, env: Environment, k: nat, owner: Owner, request: Request, result: int) {
    k < |log| && log[k] == Called(owner, request, result) && result == env.answer(log[..k], request)
  }

  predicate AdviceMade(log: Log, env: Environment, k: nat, owner: Owner, fd: int, m: EntryMapping) {
    k < |log| && log[k].Called? && Made(log, env, k, owner, Fadvise(fd, m.entry.offset, m.entry.length), log[k].result)
  }

  // The mmap behind a mapping.
  predicate MapMade(log: Log, env: Environment, k: nat, owner: Owner, fd: int, m: EntryMapping) {
    Made(log, env, k, owner, Mmap(fd, m.entry.length, m.entry.offset, m.entry.kind == MMAP_LOCKED), m.address)
  }

  // The mlock after it.
  predicate LockMade(log: Log, env: Environment, k: nat, owner: Owner, m: EntryMapping) {
    k + 1 < |log| && log[k + 1].Called? &&
    Made(log, env, k + 1, owner, Mlock(m.address, m.entry.length), log[k + 1].result)
  }

  predicate Untried(m: EntryMapping) {
    m.address == NULL && !m.success
  }

  // The calls on the descriptor from the k-th event on, and the report made of their results.
  predicate ExplainedBy(log: Log, env: Environment, k: nat, owner: Owner, fd: int, m: EntryMapping) {
    if m.entry.kind == FADVISE then AdviceMade(log, env, k, owner, fd, m) && m.success == (log[k].result >= 0)
    else if m.entry.kind == MMAP_LOCKED then MapMade(log, env, k, owner, fd, m) && m.success == (m.address != NULL)
    else if m.entry.kind == MLOCK then
      MapMade(log, env, k, owner, fd, m) &&
      if m.address == NULL then !m.success
      else LockMade(log, env, k, owner, m) && m.success == (log[k + 1].result >= 0)
    else m.success && m.address == NULL
  }

  // Either there was no descriptor to ask, or the calls are in the log from its k-th event on, after the j-th.
  predicate Explained(log: Log, env: Environment, j: nat, k: nat, owner: Owner, fd: int, m: EntryMapping) {
    k <= |log| && if fd < 0 then Untried(m) else j < k && ExplainedBy(log, env, k, owner, fd, m)
  }

  // Entries one after the other are explained one after the other, no two by the same call.
  predicate InTurn(ks: seq<nat>, list: seq<EntryMapping>, fd: int) {
    |ks| == |list| &&
    forall a, b | 0 <= a < b < |ks| :: ks[a] <= ks[b] && (0 <= fd && list[a].entry.kind <= MLOCK ==> ks[a] < ks[b])
  }

  predicate ListExplained(
    log: Log, env: Environment, j: nat, ks: seq<nat>, owner: Owner, fd: int, list: seq<EntryMapping>)
  {
    InTurn(ks, list, fd) && forall i | 0 <= i < |list| :: Explained(log, env, j, ks[i], owner, fd, list[i])
  }

  predicate Closes(e: Event, owner: Owner) {
    e.Called? && e.owner == owner && e.request.Close?
  }

  // The j-th event opened the path under this name, and nothing was closed for it since.
  predicate OpenSince(log: Log, j: nat, owner: Owner, path: Text, fd: int) {
    j < |log| && log[j].Called? && log[j] == Called(owner, OpenFile(path), log[j].result) &&
    fd == (if log[j].result < 0 then -1 else log[j].result) &&
    forall k | j < k < |log| :: !Closes(log[k], owner)
  }

  // Everything recorded for the path was asked of the descriptor it was opened under, and after that.
  ghost predicate PathFits(s: Session, log: Log, env: Environment, id: nat)
    requires id in s.paths && id in s.fds
  {
    exists j: nat, ks: seq<nat> ::
      OpenSince(log, j, Owner(s.id, id), s.paths[id], s.fds[id]) &&
      ListExplained(log, env, j, ks, Owner(s.id, id), s.fds[id], EntriesOf(s, id))
  }

  ghost predicate AllExplained(s: Session, log: Log, env: Environment) {
    s.paths.Keys == s.fds.Keys &&
    (forall id :: EntriesOf(s, id) != [] ==> id in s.fds) && forall id <- s.fds :: PathFits(s, log, env, id)
  }

  // The log has only grown, and every entry is explained by it.
  ghost predicate Keeps(s: Session, log: Log, env: Environment, o: Outcome) {
    o.session.id == s.id && log <= o.log && AllExplained(o.session, o.log, env)
  }

  lemma ExplainedLater(log: Log, later: Log, env: Environment, j: nat, k: nat, owner: Owner, fd: int, m: EntryMapping)
    requires log <= later && Explained(log, env, j, k, owner, fd, m)
    ensures Explained(later, env, j, k, owner, fd, m)
  {
    assert k < |log| ==> later[..k] == log[..k];
    assert k + 1 < |log| ==> later[..k + 1] == log[..k + 1];
  }

  // The log has grown, without a descriptor being closed for the path.
  ghost predicate StaysOpen(log: Log, later: Log, owner: Owner) {
    log <= later && forall k | |log| <= k < |later| :: !Closes(later[k], owner)
  }

  // A path whose descriptor stays as it is fits as before, with at most one entry more.
  lemma FitsLater(s: Session, log: Log, env: Environment, s': Session, later: Log, id: nat, more: seq<EntryMapping>)
    requires id in s.paths && id in s.fds && PathFits(s, log, env, id) && s'.id == s.id
    requires id in s'.paths && id in s'.fds && s'.paths[id] == s.paths[id] && s'.fds[id] == s.fds[id]
    requires EntriesOf(s', id) == EntriesOf(s, id) + more && StaysOpen(log, later, Owner(s.id, id))
    requires |more| <= 1 && forall m <- more :: forall j | 0 <= j < |log| :: Explained(later, env, j, |log|, Owner(s.id, id), s.fds[id], m)
    ensures PathFits(s', later, env, id)
  {
    hide Explained, EntriesOf;
    var owner, fd, list := Owner(s.id, id), s.fds[id], EntriesOf(s, id);
    var j: nat, ks: seq<nat> :| OpenSince(log, j, owner, s.paths[id], fd) && ListExplained(log, env, j, ks, owner, fd, list);
    assert OpenSince(later, j, owner, s'.paths[id], s'.fds[id]);
    forall i | 0 <= i < |list|
      ensures Explained(later, env, j, ks[i], owner, fd, list[i])
      ensures ks[i] <= |log| && (0 <= fd && list[i].entry.kind <= MLOCK ==> ks[i] < |log|)
    {
      ExplainedLater(log, later, env, j, ks[i], owner, fd, list[i]);
      ExplainedInTheLog(log, env, j, ks[i], owner, fd, list[i]);
    }
    if more == [] {
      assert ListExplained(later, env, j, ks, owner, fd, EntriesOf(s', id));
    } else {
      assert more[0] in more;
      assert ListExplained(later, env, j, ks + [|log|], owner, fd, EntriesOf(s', id));
    }
  }

  lemma ExplainedInTheLog(log: Log, env: Environment, j: nat, k: nat, owner: Owner, fd: int, m: EntryMapping)
    requires Explained(log, env, j, k, owner, fd, m)
    ensures k <= |log| && (0 <= fd && m.entry.kind <= MLOCK ==> k < |log|)
  {
  }

  lemma {:induction false} UnmapAllGrows(log: Log, env: Environment, owner: Owner, list: seq<EntryMapping>)
    ensures var after := UnmapAll(log, env, owner, list);
            log <= after && forall k | |log| <= k < |after| :: after[k].owner == owner
  {
    if list != [] {
      UnmapAllGrows(log, env, owner, list[..|list| - 1]);
    }
  }

  lemma RegisterKeeps(s: Session, log: Log, env: Environment, pathId: nat, filePath: Text)
    requires AllExplained(s, log, env)
    ensures Keeps(s, log, env, Register(s, log, env, pathId, filePath))
  {
    hide Explained, PathFits;
    var o := Register(s, log, env, pathId, filePath);
    assert forall id :: EntriesOf(o.session, id) == EntriesOf(s, id);
    forall id <- o.session.fds ensures PathFits(o.session, o.log, env, id) {
      if id in s.fds {
        FitsLater(s, log, env, o.session, o.log, id, []);
      } else {
        JustOpened(s, log, env, pathId, filePath);
      }
    }
  }

  lemma JustOpened(s: Session, log: Log, env: Environment, pathId: nat, filePath: Text)
    requires AllExplained(s, log, env) && pathId !in s.fds
    ensures var o := Register(s, log, env, pathId, filePath); PathFits(o.session, o.log, env, pathId)
  {
    hide Explained;
    var o := Register(s, log, env, pathId, filePath);
    assert OpenSince(o.log, |log|, Owner(s.id, pathId), o.session.paths[pathId], o.session.fds[pathId]);
    assert EntriesOf(o.session, pathId) == EntriesOf(s, pathId) == [];
    assert ListExplained(o.log, env, |log|, [], Owner(s.id, pathId), o.session.fds[pathId], []);
  }

  lemma UnregisterKeeps(s: Session, log: Log, env: Environment, pathId: nat)
    requires AllExplained(s, log, env)
    ensures Keeps(s, log, env, Unregister(s, log, env, pathId))
  {
    hide Explained, PathFits, UnmapAll;
    UnmapAllGrows(log, env, Owner(s.id, pathId), EntriesOf(s, pathId));
    var o := Unregister(s, log, env, pathId);
    forall id <- o.session.fds ensures PathFits(o.session, o.log, env, id) {
      assert pathId in s.paths ==> id != pathId;
      assert StaysOpen(log, o.log, Owner(s.id, id));
      FitsLater(s, log, env, o.session, o.log, id, []);
    }
  }

  // The calls of one read-ahead explain its entry.
  lemma AttemptExplained(log: Log, env: Environment, owner: Owner, fd: int, entry: Entry)
    requires 0 <= fd
    ensures var (m, after) := Attempt(log, env, owner, fd, entry);
            m.entry == entry && log <= after &&
            (forall any :: StaysOpen(log, after, any)) && forall j | 0 <= j < |log| :: Explained(after, env, j, |log|, owner, fd, m)
  {
    var (m, after) := Attempt(log, env, owner, fd, entry);
    var k := |log|;
    assert after[..k] == log;
    if k + 1 < |after| {
      assert after[..k + 1] == log + [after[k]];
    }
    assert ExplainedBy(after, env, k, owner, fd, m);
  }

  lemma ReadAheadKeeps(s: Session, log: Log, env: Environment, pathId: nat, kind: nat, length: nat, offset: nat)
    requires AllExplained(s, log, env)
    ensures Keeps(s, log, env, ReadAhead(s, log, env, pathId, kind, length, offset))
  {
    hide Attempt, PathFits, ExplainedBy;
    var o := ReadAhead(s, log, env, pathId, kind, length, offset);
    var m := if o.session.entries[pathId] == EntriesOf(s, pathId) then [] else [o.session.entries[pathId][|EntriesOf(s, pathId)|]];
    if pathId in s.fds && 0 <= s.fds[pathId] {
      AttemptExplained(log, env, Owner(s.id, pathId), s.fds[pathId], Entry(pathId, kind, length, offset));
    }
    forall id <- o.session.fds ensures PathFits(o.session, o.log, env, id) {
      FitsLater(s, log, env, o.session, o.log, id, if id == pathId then m else []);
    }
  }

  lemma {:induction false} RegisterAllKeeps(s: Session, log: Log, env: Environment, index: seq<IndexEntry>)
    requires AllExplained(s, log, env)
    ensures Keeps(s, log, env, RegisterAll(s, log, env, index))
  {
    hide Register, AllExplained;
    if index != [] {
      var before, last := RegisterAll(s, log, env, index[..|index| - 1]), index[|index| - 1];
      RegisterAllKeeps(s, log, env, index[..|index| - 1]);
      if 0 <= last.id {
        RegisterKeeps(before.session, before.log, env, last.id, last.fileName);
      }
    }
  }

  lemma {:induction false} ReadAheadAllKeeps(s: Session, log: Log, env: Environment, kind: nat, list: seq<FileEntry>)
    requires AllExplained(s, log, env)
    ensures Keeps(s, log, env, ReadAheadAll(s, log, env, kind, list))
  {
    hide ReadAhead, AllExplained;
    if list != [] {
      var before, last := ReadAheadAll(s, log, env, kind, list[..|list| - 1]), list[|list| - 1];
      ReadAheadAllKeeps(s, log, env, kind, list[..|list| - 1]);
      if Legal(last) {
        ReadAheadKeeps(before.session, before.log, env, AsSize(last.indexId), kind, last.fileLength, last.fileOffset);
      }
    }
  }

  // Over every run, every entry a session records is explained by calls in the log.
  lemma {:induction false} RunExplained(s: Session, log: Log, env: Environment, ops: seq<Op>)
    requires AllExplained(s, log, env)
    ensures Keeps(s, log, env, Run(s, log, env, ops))
  {
    hide Register, Unregister, ReadAhead, AllExplained;
    if ops != [] {
      RunExplained(s, log, env, ops[..|ops| - 1]);
      var before := Run(s, log, env, ops[..|ops| - 1]);
      match ops[|ops| - 1] {
        case RegisterOp(pathId, filePath) => RegisterKeeps(before.session, before.log, env, pathId, filePath);
        case UnregisterOp(pathId) => UnregisterKeeps(before.session, before.log, env, pathId);
        case ReadAheadOp(pathId, kind, length, offset) =>
          ReadAheadKeeps(before.session, before.log, env, pathId, kind, length, offset);
        case ProcessFdOp(fd) =>
          var file := env.trace(before.log, fd);
          if file.Some? {
            RegisterAllKeeps(before.session, before.log, env, file.value.index);
            var registered := RegisterAll(before.session, before.log, env, file.value.index);
            ReadAheadAllKeeps(registered.session, registered.log, env, FADVISE, file.value.list);
          }
      }
    }
  }

  /**
   Over every run, each thing a session has recorded for a path was asked, by a call of its own and in order,
   of the descriptor that opening its name returned, after it was opened and before anything was closed for
   the path; or the path could not be opened.
   */
  lemma AskedOfItsDescriptor(id: nat, description: Text, env: Environment, ops: seq<Op>, pathId: nat)
    requires EntriesOf(Run(Fresh(id, description), [], env, ops).session, pathId) != []
    ensures var o := Run(Fresh(id, description), [], env, ops);
            pathId in o.session.paths && pathId in o.session.fds && PathFits(o.session, o.log, env, pathId)
  {
    hide Run, PathFits;
    RunExplained(Fresh(id, description), [], env, ops);
  }

  lemma ExplanationOf(id: nat, description: Text, env: Environment, ops: seq<Op>, pathId: nat, m: EntryMapping)
    requires m in EntriesOf(Run(Fresh(id, description), [], env, ops).session, pathId)
    ensures var o := Run(Fresh(id, description), [], env, ops);
            pathId in o.session.fds &&
            if o.session.fds[pathId] < 0 then Untried(m)
            else exists k: nat :: ExplainedBy(o.log, env, k, Owner(id, pathId), o.session.fds[pathId], m)
  {
    hide Run, ExplainedBy, Untried, PathFits;
    RunExplained(Fresh(id, description), [], env, ops);
    var o := Run(Fresh(id, description), [], env, ops);
    ExplanationIn(o.session, o.log, env, pathId, m);
  }

  lemma ExplanationIn(s: Session, log: Log, env: Environment, id: nat, m: EntryMapping)
    requires id in s.paths && id in s.fds && PathFits(s, log, env, id) && m in EntriesOf(s, id)
    ensures if s.fds[id] < 0 then Untried(m)
            else exists k: nat :: ExplainedBy(log, env, k, Owner(s.id, id), s.fds[id], m)
  {
    hide ExplainedBy, Untried, EntriesOf;
    var owner, list := Owner(s.id, id), EntriesOf(s, id);
    var j: nat, ks: seq<nat> :| OpenSince(log, j, owner, s.paths[id], s.fds[id]) && ListExplained(log, env, j, ks, owner, s.fds[id], list);
    var i :| 0 <= i < |list| && list[i] == m;
    assert Explained(log, env, j, ks[i], owner, s.fds[id], m);
  }

  /**
   What a session remembers of its mappings, over every run: one recorded as a success is a region if and
   only if the mmap made for it did not return MAP_FAILED, and one recorded as a failure is a region if
   and only if mmap gave a region and the mlock made for it failed.
   */
  lemma RecordedMappings(id: nat, description: Text, env: Environment, ops: seq<Op>, pathId: nat, m: EntryMapping)
    requires m in EntriesOf(Run(Fresh(id, description), [], env, ops).session, pathId) && Maps(m.entry.kind)
    ensures var o, owner := Run(Fresh(id, description), [], env, ops), Owner(id, pathId);
            var log := o.log;
            pathId in o.session.fds &&
            (m.success ==> exists k: nat ::
               MapMade(log, env, k, owner, o.session.fds[pathId], m) && (IsRegion(m.address) <==> log[k].result != MAP_FAILED)) &&
            (!m.success ==> (IsRegion(m.address) <==> exists k: nat ::
               MapMade(log, env, k, owner, o.session.fds[pathId], m) && IsRegion(log[k].result) && m.entry.kind == MLOCK &&
               LockMade(log, env, k, owner, m) && log[k + 1].result < 0))
  {
    hide Run;
    var o, owner := Run(Fresh(id, description), [], env, ops), Owner(id, pathId);
    ExplanationOf(id, description, env, ops, pathId, m);
    if 0 <= o.session.fds[pathId] {
      var k: nat :| ExplainedBy(o.log, env, k, owner, o.session.fds[pathId], m);
    }
  }

  /**
   posix_fadvise(3) returns an error number, never a negative one, so the test for a negative result finds
   no failure: every read-ahead by advice on a file that could be opened is recorded as a success.
   */
  lemma AdviceNeverFails(id: nat, description: Text, env: Environment, ops: seq<Op>, pathId: nat, m: EntryMapping)
    requires forall log, fd, offset, length :: env.answer(log, Fadvise(fd, offset, length)) >= 0
    requires m in EntriesOf(Run(Fresh(id, description), [], env, ops).session, pathId) && m.entry.kind == FADVISE
    ensures var o := Run(Fresh(id, description), [], env, ops);
            pathId in o.session.fds && (m.success <==> 0 <= o.session.fds[pathId]) &&
            (m.success ==> exists k: nat :: AdviceMade(o.log, env, k, Owner(id, pathId), o.session.fds[pathId], m))
  {
    hide Run;
    var o, owner := Run(Fresh(id, description), [], env, ops), Owner(id, pathId);
    ExplanationOf(id, description, env, ops, pathId, m);
    if 0 <= o.session.fds[pathId] {
      var k: nat :| ExplainedBy(o.log, env, k, owner, o.session.fds[pathId], m);
    }
  }

  /// Both false reports happen.

  // Every open yields 3, and mmap and mlock answer as given.
  function Answering(order: (Log, set<nat>) -> seq<nat>, mapped: int, lock: int): Environment {
    Environment((_, request: Request) => match request
                                         case OpenFile(_) => 3
                                         case Mmap(_, _, _, _) => mapped
                                         case Mlock(_, _) => lock
                                         case _ => 0,
                order, (_, _) => None, false)
  }

  // Registers path 1 and reads a page of it ahead.
  function OneReadAhead(kind: nat): seq<Op> {
    [RegisterOp(1, []), ReadAheadOp(1, kind, 4096, 0)]
  }

  // A failed mmap is recorded as a success, and a mapped region that could not be locked as a failure.
  lemma ReportExample(order: (Log, set<nat>) -> seq<nat>)
    ensures EntriesOf(Run(Fresh(0, []), [], Answering(order, MAP_FAILED, 0), OneReadAhead(MMAP_LOCKED)).session, 1) ==
            [EntryMapping(Entry(1, MMAP_LOCKED, 4096, 0), MAP_FAILED, true)]
    ensures EntriesOf(Run(Fresh(0, []), [], Answering(order, 4096, -1), OneReadAhead(MLOCK)).session, 1) ==
            [EntryMapping(Entry(1, MLOCK, 4096, 0), 4096, false)]
  {
    RunOfTwo(Answering(order, MAP_FAILED, 0), MMAP_LOCKED);
    RunOfTwo(Answering(order, 4096, -1), MLOCK);
  }

  lemma RunOfTwo(env: Environment, kind: nat)
    ensures var registered := Register(Fresh(0, []), [], env, 1, []);
            Run(Fresh(0, []), [], env, OneReadAhead(kind)) ==
            ReadAhead(registered.session, registered.log, env, 1, kind, 4096, 0)
  {
    hide Register, ReadAhead;
    var ops := OneReadAhead(kind);
    assert ops[..1] == [RegisterOp(1, [])] && ops[..1][..0] == [];
    assert Run(Fresh(0, []), [], env, []) == Outcome(Fresh(0, []), [], true);
  }
}
