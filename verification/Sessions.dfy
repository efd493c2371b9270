/**
 What the calls on an in-process prefetch session do to its three maps and to the kernel, as
 functions, with the invariants every run keeps. DirectSession holds the object itself.
 */
module Sessions {
  import opened Bytes
  import opened TraceFiles
  import opened SystemCalls

  // ReadAheadKind. A kind off the wire may be any other number too.
  const FADVISE: nat := 0
  const MMAP_LOCKED: nat := 1
  const MLOCK: nat := 2

  datatype Entry = Entry(pathId: nat, kind: nat, length: nat, offset: nat)

  datatype EntryMapping = EntryMapping(entry: Entry, address: int, success: bool)

  datatype Session = Session(
    id: nat,
    description: Text,
    paths: map<nat, Text>,
    fds: map<nat, int>,  // negative when the path could not be opened
    entries: map<nat, seq<EntryMapping>>
  )

  datatype Outcome = Outcome(session: Session, log: Log, ok: bool)

  function Fresh(id: nat, description: Text): Session {
    Session(id, description, map[], map[], map[])
  }

  function EntriesOf(s: Session, pathId: nat): seq<EntryMapping> {
    if pathId in s.entries then s.entries[pathId] else []
  }

  predicate Maps(kind: nat) {
    kind == MMAP_LOCKED || kind == MLOCK
  }

  /// The calls.

  // Re-registering changes no map, and the descriptor just opened is dropped by the map's insert.
  function Register(s: Session, log: Log, env: Environment, pathId: nat, filePath: Text): Outcome {
    var owner := Owner(s.id, pathId);
    var (log1, result) := Call(log, env, owner, OpenFile(filePath));
    var entries := if env.dchecks && pathId !in s.entries then s.entries[pathId := []] else s.entries;
    if pathId in s.fds then
      Outcome(s.(paths := if pathId in s.paths then s.paths else s.paths[pathId := filePath], entries := entries),
              if 0 <= result then log1 + [Abandoned(owner, result)] else log1, true)
    else
      Outcome(s.(paths := if pathId in s.paths then s.paths else s.paths[pathId := filePath],
                 fds := s.fds[pathId := if result < 0 then -1 else result],
                 entries := entries),
              log1, true)
  }

  function UnmapAll(log: Log, env: Environment, owner: Owner, list: seq<EntryMapping>): Log {
    if list == [] then log else
    var before := UnmapAll(log, env, owner, list[..|list| - 1]);
    var last := list[|list| - 1];
    if Maps(last.entry.kind) then Call(before, env, owner, Munmap(last.address, last.entry.length)).0 else before
  }

  function CloseFd(log: Log, env: Environment, owner: Owner, fd: int): Log {
    if fd < 0 then log else Call(log, env, owner, Close(fd)).0
  }

  function Unregister(s: Session, log: Log, env: Environment, pathId: nat): Outcome {
    if pathId !in s.paths then Outcome(s, log, false) else
    var owner := Owner(s.id, pathId);
    var log1 := UnmapAll(log, env, owner, EntriesOf(s, pathId));
    var log2 := if pathId in s.fds then CloseFd(log1, env, owner, s.fds[pathId]) else log1;
    Outcome(s.(paths := s.paths - {pathId}, fds := s.fds - {pathId}, entries := s.entries - {pathId}), log2, true)
  }

  // The system calls of one read-ahead on an open descriptor: the new mapping, and the log.
  function Attempt(log: Log, env: Environment, owner: Owner, fd: int, entry: Entry): (EntryMapping, Log) {
    if entry.kind == FADVISE then
      var (log1, result) := Call(log, env, owner, Fadvise(fd, entry.offset, entry.length));
      (EntryMapping(entry, NULL, result >= 0), log1)
    else if Maps(entry.kind) then
      var (log1, address) := Call(log, env, owner, Mmap(fd, entry.length, entry.offset, entry.kind == MMAP_LOCKED));
      if address == NULL || entry.kind == MMAP_LOCKED then (EntryMapping(entry, address, address != NULL), log1)
      else
        var (log2, result) := Call(log1, env, owner, Mlock(address, entry.length));
        (EntryMapping(entry, address, result >= 0), log2)
    else (EntryMapping(entry, NULL, true), log)
  }

  function ReadAhead(s: Session, log: Log, env: Environment, pathId: nat, kind: nat, length: nat, offset: nat)
    : Outcome
  {
    var list := EntriesOf(s, pathId);
    if pathId !in s.fds then Outcome(s.(entries := s.entries[pathId := list]), log, false) else
    var entry := Entry(pathId, kind, length, offset);
    if s.fds[pathId] < 0 then
      Outcome(s.(entries := s.entries[pathId := list + [EntryMapping(entry, NULL, false)]]), log, false)
    else
      var (mapping, log1) := Attempt(log, env, Owner(s.id, pathId), s.fds[pathId], entry);
      Outcome(s.(entries := s.entries[pathId := list + [mapping]]), log1, mapping.success)
  }

  /// Processing a whole trace file.

  // int64 to size_t.
  function AsSize(value: int): nat {
    if 0 <= value then value else if value < -0x1_0000_0000_0000_0000 then 0 else value + 0x1_0000_0000_0000_0000
  }

  function RegisterAll(s: Session, log: Log, env: Environment, index: seq<IndexEntry>): Outcome {
    if index == [] then Outcome(s, log, true) else
    var before := RegisterAll(s, log, env, index[..|index| - 1]);
    var last := index[|index| - 1];
    if last.id < 0 then before
    else Register(before.session, before.log, env, last.id, last.fileName).(ok := true)
  }

  predicate Legal(entry: FileEntry) {
    0 <= entry.fileLength && 0 <= entry.fileOffset
  }

  function ReadAheadAll(s: Session, log: Log, env: Environment, kind: nat, list: seq<FileEntry>): Outcome {
    if list == [] then Outcome(s, log, true) else
    var before := ReadAheadAll(s, log, env, kind, list[..|list| - 1]);
    var last := list[|list| - 1];
    if !Legal(last) then before
    else ReadAhead(before.session, before.log, env, AsSize(last.indexId), kind, last.fileLength, last.fileOffset).(ok := true)
  }

  function Process(s: Session, log: Log, env: Environment, kind: nat, file: TraceFile): Outcome {
    var registered := RegisterAll(s, log, env, file.index);
    ReadAheadAll(registered.session, registered.log, env, kind, file.list)
  }

  function ProcessFd(s: Session, log: Log, env: Environment, fd: int): Outcome {
    var file := env.trace(log, fd);
    if file.None? then Outcome(s, log, false) else Process(s, log, env, FADVISE, file.value)
  }

  /// Destruction.

  function UnregisterAll(s: Session, log: Log, env: Environment, ids: seq<nat>): Outcome {
    if ids == [] then Outcome(s, log, true) else
    var before := UnregisterAll(s, log, env, ids[..|ids| - 1]);
    Unregister(before.session, before.log, env, ids[|ids| - 1])
  }

  function CloseAll(s: Session, log: Log, env: Environment, ids: seq<nat>): Log {
    if ids == [] then log else
    var before := CloseAll(s, log, env, ids[..|ids| - 1]);
    var id := ids[|ids| - 1];
    if id in s.fds then CloseFd(before, env, Owner(s.id, id), s.fds[id]) else before
  }

  // The destructor unregisters every path with an entry list; the maps then close what is left.
  function Destroy(s: Session, log: Log, env: Environment): Log {
    var left := UnregisterAll(s, log, env, env.order(log, s.entries.Keys));
    CloseAll(left.session, left.log, env, env.order(left.log, left.session.fds.Keys))
  }
}
