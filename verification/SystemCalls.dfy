/**
 The operating system as a session sees it: an oracle that answers each call any way it likes, given
 everything that happened before, and a log of the calls and their results.
 */
module SystemCalls {
  import opened Wrappers
  import opened Bytes
  import opened TraceFiles

  // A call is made on behalf of one path of one session.
  datatype Owner = Owner(session: nat, path: nat)

  datatype Request =
    | OpenFile(path: Text)
    | Close(fd: int)
    | Fadvise(fd: int, offset: nat, length: nat)
    | Mmap(fd: int, length: nat, offset: nat, locked: bool)
    | Mlock(address: int, length: nat)
    | Munmap(address: int, length: nat)

  // Abandoned marks a descriptor that went out of scope without being stored or closed.
  datatype Event =
    | Called(owner: Owner, request: Request, result: int)
    | Abandoned(owner: Owner, fd: int)

  type Log = seq<Event>

  const NULL: int := 0
  const MAP_FAILED: int := -1

  // No address, or the address mmap returns when it fails.
  predicate IsRegion(address: int) {
    address != NULL && address != MAP_FAILED
  }

  // `ids` lists the set once each.
  ghost predicate Enumerates(ids: seq<nat>, s: set<nat>) {
    (forall i, j | 0 <= i < j < |ids| :: ids[i] != ids[j]) && forall x :: x in ids <==> x in s
  }

  /**
   The environment: the answers of system calls; the order in which an unordered map is walked, which may depend on all that happened before; the
   trace file, if any, behind a descriptor; and whether DCHECK expressions are evaluated.
   */
  datatype Environment = Environment(
    answer: (Log, Request) -> int,
    order: (Log, set<nat>) -> seq<nat>,
    trace: (Log, int) -> Option<TraceFile>,
    dchecks: bool
  )

  ghost predicate Orders(env: Environment) {
    forall log: Log, s: set<nat> :: Enumerates(env.order(log, s), s)
  }

  function Call(log: Log, env: Environment, owner: Owner, request: Request): (Log, int) {
    var result := env.answer(log, request);
    (log + [Called(owner, request, result)], result)
  }

  /// Accounting over a log.

  datatype Region = Region(owner: Owner, address: int, length: nat)

  datatype Descriptor = Descriptor(owner: Owner, fd: int)

  function MapChange(e: Event, r: Region): int {
    if e.Called? && e.owner == r.owner && IsRegion(r.address) then
      match e.request
      case Mmap(_, length, _, _) => if e.result == r.address && length == r.length then 1 else 0
      case Munmap(address, length) => if address == r.address && length == r.length then -1 else 0
      case _ => 0
    else 0
  }

  // How many more times the region was mapped than unmapped.
  function MapBalance(log: Log, r: Region): int {
    if log == [] then 0 else MapBalance(log[..|log| - 1], r) + MapChange(log[|log| - 1], r)
  }

  function FdChange(e: Event, d: Descriptor): int {
    if e.Called? && e.owner == d.owner && 0 <= d.fd then
      match e.request
      case OpenFile(_) => if e.result == d.fd then 1 else 0
      case Close(fd) => if fd == d.fd then -1 else 0
      case _ => 0
    else 0
  }

  // How many more times the descriptor was opened than closed.
  function FdBalance(log: Log, d: Descriptor): int {
    if log == [] then 0 else FdBalance(log[..|log| - 1], d) + FdChange(log[|log| - 1], d)
  }

  // How often the descriptor was abandoned.
  function Leaks(log: Log, d: Descriptor): nat {
    if log == [] then 0
    else Leaks(log[..|log| - 1], d) + if log[|log| - 1] == Abandoned(d.owner, d.fd) then 1 else 0
  }

  lemma BalanceLast(log: Log, e: Event)
    ensures forall r :: MapBalance(log + [e], r) == MapBalance(log, r) + MapChange(e, r)
    ensures forall d :: FdBalance(log + [e], d) == FdBalance(log, d) + FdChange(e, d)
    ensures forall d :: Leaks(log + [e], d) == Leaks(log, d) + if e == Abandoned(d.owner, d.fd) then 1 else 0
  {
    assert (log + [e])[..|log|] == log;
  }

  /// The kernel object the classes share.

  class Kernel {
    const env: Environment
    var log: Log

    constructor (env: Environment)
      ensures this.env == env && log == []
    {
      this.env := env;
      log := [];
    }

    method Invoke(owner: Owner, request: Request) returns (result: int)
      modifies this
      ensures (log, result) == Call(old(log), env, owner, request)
    {
      result := env.answer(log, request);
      log := log + [Called(owner, request, result)];
    }

    // A descriptor is lost track of.
    method Abandon(owner: Owner, fd: int)
      modifies this
      ensures log == old(log) + [Abandoned(owner, fd)]
    {
      log := log + [Abandoned(owner, fd)];
    }
  }
}
