/** What each call on a store changes, field by field, and that it changes nothing else. */
module SessionCalls {
  import opened Bytes
  import opened SystemCalls
  import opened Sessions
  import opened SessionResources
  import opened Stores

  // What is recorded for the other paths stays.
  ghost predicate OthersStay(s: Session, s': Session, pathId: nat) {
    s'.id == s.id && s'.description == s.description &&
    forall other | other != pathId ::
      (other in s'.paths <==> other in s.paths) && (other in s.paths ==> s'.paths[other] == s.paths[other]) &&
      (other in s'.fds <==> other in s.fds) && (other in s.fds ==> s'.fds[other] == s.fds[other]) &&
      EntriesOf(s', other) == EntriesOf(s, other)
  }

  // What opening the path returns, at this point.
  function Opening(log: Log, env: Environment, path: Text): int {
    var result := env.answer(log, OpenFile(path));
    if result < 0 then -1 else result
  }

  // A path is known afterwards, under its first name and descriptor; its entries stay.
  ghost predicate Registered(s: Session, s': Session, log: Log, env: Environment, pathId: nat, path: Text) {
    pathId in s'.paths && s'.paths[pathId] == (if pathId in s.paths then s.paths[pathId] else path) &&
    pathId in s'.fds && s'.fds[pathId] == (if pathId in s.fds then s.fds[pathId] else Opening(log, env, path)) &&
    EntriesOf(s', pathId) == EntriesOf(s, pathId) && OthersStay(s, s', pathId)
  }

  // A path is unknown afterwards, with nothing recorded for it.
  ghost predicate Unregistered(s: Session, s': Session, pathId: nat) {
    pathId !in s'.paths && pathId !in s'.fds && EntriesOf(s', pathId) == [] && OthersStay(s, s', pathId)
  }

  // One entry is recorded for a known path, a failure if its file could not be opened, and none for an unknown one.
  ghost predicate ReadAhead(s: Session, s': Session, pathId: nat, entry: Entry) {
    s'.paths == s.paths && s'.fds == s.fds && OthersStay(s, s', pathId) &&
    var before, after := EntriesOf(s, pathId), EntriesOf(s', pathId);
    if pathId in s.fds then
      |after| == |before| + 1 && after[..|before|] == before && after[|before|].entry == entry &&
      (s.fds[pathId] < 0 ==> !after[|before|].success)
    else after == before
  }

  // What a session call does, and what it returns.
  lemma PerformDoes(s: Session, log: Log, env: Environment, op: Op)
    requires s.paths.Keys == s.fds.Keys && forall id :: EntriesOf(s, id) != [] ==> id in s.paths
    ensures var o := Perform(s, log, env, op);
            match op
            case RegisterOp(pathId, path) => o.ok && Registered(s, o.session, log, env, pathId, path)
            case UnregisterOp(pathId) => (o.ok <==> pathId in s.paths) && Unregistered(s, o.session, pathId)
            case ReadAheadOp(pathId, kind, length, offset) =>
              ReadAhead(s, o.session, pathId, Entry(pathId, kind, length, offset)) &&
              var after := EntriesOf(o.session, pathId);
              (o.ok <==> pathId in s.fds && after != [] && after[|after| - 1].success)
            case ProcessFdOp(fd) => o == ProcessFd(s, log, env, fd)
  {
    match op
    case UnregisterOp(pathId) => UnregisterDoes(s, log, env, pathId);
    case ReadAheadOp(pathId, kind, length, offset) => ReadAheadDoes(s, log, env, pathId, kind, length, offset);
    case _ =>
  }

  lemma UnregisterDoes(s: Session, log: Log, env: Environment, pathId: nat)
    requires s.paths.Keys == s.fds.Keys && forall id :: EntriesOf(s, id) != [] ==> id in s.paths
    ensures var o := Unregister(s, log, env, pathId); (o.ok <==> pathId in s.paths) && Unregistered(s, o.session, pathId)
  {
    hide UnmapAll, CloseFd;
  }

  lemma ReadAheadDoes(s: Session, log: Log, env: Environment, pathId: nat, kind: nat, length: nat, offset: nat)
    ensures var o := Sessions.ReadAhead(s, log, env, pathId, kind, length, offset);
            ReadAhead(s, o.session, pathId, Entry(pathId, kind, length, offset)) &&
            var after := EntriesOf(o.session, pathId);
            (o.ok <==> pathId in s.fds && after != [] && after[|after| - 1].success)
  {
    hide Attempt;
    var entry := Entry(pathId, kind, length, offset);
    if pathId in s.fds && 0 <= s.fds[pathId] {
      AttemptBalance(log, env, Owner(s.id, pathId), s.fds[pathId], entry);
    }
  }

  // What a call on the store does: it is about one session, and the others stay as they are.
  lemma CallDoes(w: World, env: Environment, call: Call)
    ensures var w', sid := Apply(w, env, call), call.sid;
            (forall other | other != sid ::
               (other in w'.store <==> other in w.store) && (other in w.store ==> w'.store[other] == w.store[other])) &&
            match call
            case Create(_, description) =>
              sid in w'.store && w'.log == w.log &&
              (if sid in w.store then w'.store[sid] == w.store[sid]
               else w'.store[sid] == Session(sid, description, map[], map[], map[]))
            case CreateFromFd(_, description, fd) =>
              sid in w'.store &&
              if sid in w.store then w' == w
              else w'.store[sid] == ProcessFd(Session(sid, description, map[], map[], map[]), w.log, env, fd).session
            case Destroy(_) => sid !in w'.store
            case OnSession(_, op) =>
              if sid in w.store then sid in w'.store && w'.store[sid] == Perform(w.store[sid], w.log, env, op).session
              else w' == w
  {
    hide ProcessFd, Perform, Sessions.Destroy;
  }
}
