/** The session manager object that owns in-process sessions. */
module DirectManager {
  import opened Bytes
  import opened SystemCalls
  import opened Sessions
  import opened DirectSession
  import opened Stores

  class SessionManager {
    const kernel: Kernel
    var sessionsMap: map<nat, SessionDirect>

    constructor (kernel: Kernel)
      ensures this.kernel == kernel && Valid() && sessionsMap == map[]
    {
      this.kernel := kernel;
      sessionsMap := map[];
    }

    ghost predicate Valid()
      reads this
    {
      forall sid | sid in sessionsMap :: sessionsMap[sid].id == sid && sessionsMap[sid].kernel == kernel
    }

    ghost function Abs(): map<nat, Session>
      reads this, sessionsMap.Values
    {
      map sid | sid in sessionsMap :: sessionsMap[sid].Abs()
    }

    ghost function World(): World
      reads this, sessionsMap.Values, kernel
    {
      Stores.World(Abs(), kernel.log)
    }

    // When at most one session has changed, so has at most its place in the store.
    twostate lemma OneSessionChanged(sid: nat)
      requires old(Valid()) && sessionsMap == old(sessionsMap) && sid in sessionsMap
      requires forall other | other in sessionsMap && other != sid :: unchanged(sessionsMap[other])
      ensures Abs() == old(Abs())[sid := sessionsMap[sid].Abs()]
    {
    }

    method FindSession(sid: nat) returns (session: SessionDirect?)
      requires Valid()
      ensures session == if sid in sessionsMap then sessionsMap[sid] else null
    {
      return if sid in sessionsMap then sessionsMap[sid] else null;
    }

    // An existing session of that id stays in the map, and the new one is returned all the same.
    method CreateSession(sid: nat, description: Text) returns (session: SessionDirect)
      requires Valid()
      modifies this
      ensures Valid() && kernel.log == old(kernel.log)
      ensures session.Abs() == Fresh(sid, description) && session.kernel == kernel && fresh(session)
      ensures sessionsMap == if sid in old(sessionsMap) then old(sessionsMap) else old(sessionsMap)[sid := session]
      ensures World() == Apply(old(World()), kernel.env, Create(sid, description))
    {
      session := new SessionDirect(kernel, sid, description);
      if sid !in sessionsMap {
        sessionsMap := sessionsMap[sid := session];
      }
    }

    // Erases the session and runs its destructor. A task data record may hold the session a little longer,
    // until the end of the FinishTask that makes this call, and nothing happens to the session in between.
    method DestroySession(sid: nat) returns (ok: bool)
      requires Valid()
      modifies this, kernel, sessionsMap.Values
      ensures Valid() && sessionsMap == old(sessionsMap) - {sid}
      ensures ok == (sid in old(sessionsMap))
      ensures World() == Apply(old(World()), kernel.env, Destroy(sid))
    {
      if sid !in sessionsMap {
        return false;
      }
      var session := sessionsMap[sid];
      sessionsMap := sessionsMap - {sid};
      session.Destroy();
      return true;
    }
  }
}
