/**
 A store of in-process sessions and the calls made on it, as functions, with the resource
 accounting of the whole store. DirectManager holds the object itself.
 */
module Stores {
  import opened Bytes
  import opened SystemCalls
  import opened Sessions
  import opened SessionResources

  datatype World = World(store: map<nat, Session>, log: Log)

  // What a client asks of a session manager and of the sessions it handed out.
  datatype Call =
    | Create(sid: nat, description: Text)
    | CreateFromFd(sid: nat, description: Text, fd: int)
    | Destroy(sid: nat)
    | OnSession(sid: nat, op: Op)

  function Apply(w: World, env: Environment, call: Call): World {
    match call
    case Create(sid, description) =>
      if sid in w.store then w else w.(store := w.store[sid := Fresh(sid, description)])
    case CreateFromFd(sid, description, fd) =>
      if sid in w.store then w else
      var o := ProcessFd(Fresh(sid, description), w.log, env, fd);
      World(w.store[sid := o.session], o.log)
    case Destroy(sid) =>
      if sid in w.store then World(w.store - {sid}, Sessions.Destroy(w.store[sid], w.log, env)) else w
    case OnSession(sid, op) =>
      if sid in w.store then
        var o := Perform(w.store[sid], w.log, env, op);
        World(w.store[sid := o.session], o.log)
      else w
  }

  function ApplyAll(w: World, env: Environment, calls: seq<Call>): World {
    if calls == [] then w else Apply(ApplyAll(w, env, calls[..|calls| - 1]), env, calls[|calls| - 1])
  }

  lemma {:induction false} ApplyAllAppend(w: World, env: Environment, front: seq<Call>, back: seq<Call>)
    ensures ApplyAll(w, env, front + back) == ApplyAll(ApplyAll(w, env, front), env, back)
  {
    if back == [] {
      assert front + back == front;
    } else {
      var all := front + back;
      assert all[..|all| - 1] == front + back[..|back| - 1];
      ApplyAllAppend(w, env, front, back[..|back| - 1]);
    }
  }

  /// The accounting of a whole store.

  // Nothing the session with this id ever acquired is still held.
  ghost predicate Settled(log: Log, sid: nat) {
    (forall r: Region | r.owner.session == sid :: MapBalance(log, r) == 0) &&
    forall d: Descriptor | d.owner.session == sid && 0 <= d.fd :: FdBalance(log, d) == Leaks(log, d)
  }

  ghost predicate WorldSound(w: World, env: Environment) {
    (forall sid | sid in w.store :: w.store[sid].id == sid && Sound(w.store[sid], w.log, env)) &&
    forall sid: nat | sid !in w.store :: Settled(w.log, sid)
  }

  // Work on one session leaves the accounts of all others as they were.
  lemma OthersUntouched(w: World, w': World, env: Environment, sid: nat)
    requires WorldSound(w, env) && Private(w.log, w'.log, sid)
    requires w'.store - {sid} == w.store - {sid}
    requires if sid in w'.store then w'.store[sid].id == sid && Sound(w'.store[sid], w'.log, env) else Settled(w'.log, sid)
    ensures WorldSound(w', env)
  {
    forall other | other in w'.store
      ensures w'.store[other].id == other && Sound(w'.store[other], w'.log, env)
    {
      if other != sid {
        assert other in w'.store - {sid};
        assert w'.store[other] == (w'.store - {sid})[other] == (w.store - {sid})[other] == w.store[other];
      }
    }
    forall other: nat | other !in w'.store
      ensures Settled(w'.log, other)
    {
      if other != sid {
        assert other !in w.store - {sid};
        assert Settled(w.log, other);
      }
    }
  }

  lemma ApplySound(w: World, env: Environment, call: Call)
    requires Orders(env) && WorldSound(w, env)
    ensures WorldSound(Apply(w, env, call), env)
  {
    hide Perform, ProcessFd, Sessions.Destroy, MapBalance, FdBalance, Leaks, Consistent, Sound;
    var w', sid := Apply(w, env, call), call.sid;
    match call {
      case Create(_, description) =>
        if sid !in w.store {
          FreshSound(sid, description, w.log, env);
          OthersUntouched(w, w', env, sid);
        }
      case CreateFromFd(_, description, fd) =>
        if sid !in w.store {
          FreshSound(sid, description, w.log, env);
          PerformSound(Fresh(sid, description), w.log, env, ProcessFdOp(fd));
          assert ProcessFd(Fresh(sid, description), w.log, env, fd)
              == Perform(Fresh(sid, description), w.log, env, ProcessFdOp(fd)) by { PerformIsProcessFd(sid, description, w.log, env, fd); }
          OthersUntouched(w, w', env, sid);
        }
      case Destroy(_) =>
        if sid in w.store {
          DestroyReleases(w.store[sid], w.log, env);
          OthersUntouched(w, w', env, sid);
        }
      case OnSession(_, op) =>
        if sid in w.store {
          PerformSound(w.store[sid], w.log, env, op);
          OthersUntouched(w, w', env, sid);
        }
    }
  }

  lemma PerformIsProcessFd(sid: nat, description: Text, log: Log, env: Environment, fd: int)
    ensures ProcessFd(Fresh(sid, description), log, env, fd) == Perform(Fresh(sid, description), log, env, ProcessFdOp(fd))
  {
  }

  lemma FreshSound(sid: nat, description: Text, log: Log, env: Environment)
    requires Settled(log, sid)
    ensures Sound(Fresh(sid, description), log, env)
  {
  }

  /**
   Over any calls whatever, the kernel's view of every session's mappings and descriptors stays the
   session's own, and a session that is gone has given everything back.
   */
  lemma {:induction false} ApplyAllSound(w: World, env: Environment, calls: seq<Call>)
    requires Orders(env) && WorldSound(w, env)
    ensures WorldSound(ApplyAll(w, env, calls), env)
  {
    if calls != [] {
      hide Apply, WorldSound;
      ApplyAllSound(w, env, calls[..|calls| - 1]);
      ApplySound(ApplyAll(w, env, calls[..|calls| - 1]), env, calls[|calls| - 1]);
    }
  }

  /// The end of the store.

  function DestroyEach(w: World, env: Environment, ids: seq<nat>): World {
    if ids == [] then w else Apply(DestroyEach(w, env, ids[..|ids| - 1]), env, Destroy(ids[|ids| - 1]))
  }

  function Shutdown(w: World, env: Environment): World {
    DestroyEach(w, env, env.order(w.log, w.store.Keys))
  }

  lemma {:induction false} DestroyEachEmpties(w: World, env: Environment, ids: seq<nat>)
    requires Orders(env) && WorldSound(w, env)
    ensures var w' := DestroyEach(w, env, ids); WorldSound(w', env) && w'.store.Keys == w.store.Keys - Elements(ids)
  {
    if ids != [] {
      hide WorldSound;
      DestroyEachEmpties(w, env, ids[..|ids| - 1]);
      ApplySound(DestroyEach(w, env, ids[..|ids| - 1]), env, Destroy(ids[|ids| - 1]));
      assert ids == ids[..|ids| - 1] + [ids[|ids| - 1]];
      assert Elements(ids) == Elements(ids[..|ids| - 1]) + {ids[|ids| - 1]};
    }
  }

  lemma EmptyWorldSound(env: Environment)
    ensures WorldSound(World(map[], []), env)
  {
  }

  // When a store goes away, everything its sessions acquired has been given back.
  lemma ShutdownReleases(w: World, env: Environment)
    requires Orders(env) && WorldSound(w, env)
    ensures var last := Shutdown(w, env);
            last.store == map[] &&
            (forall r: Region :: MapBalance(last.log, r) == 0) &&
            forall d: Descriptor | 0 <= d.fd :: FdBalance(last.log, d) == Leaks(last.log, d)
  {
    var ids := env.order(w.log, w.store.Keys);
    assert Enumerates(ids, w.store.Keys);
    DestroyEachEmpties(w, env, ids);
    var last := Shutdown(w, env);
    assert last.store.Keys == {};
    forall r: Region ensures MapBalance(last.log, r) == 0 {
      assert Settled(last.log, r.owner.session);
    }
    forall d: Descriptor | 0 <= d.fd ensures FdBalance(last.log, d) == Leaks(last.log, d) {
      assert Settled(last.log, d.owner.session);
    }
  }
}
