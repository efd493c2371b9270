/**
 What processing a trace file makes of a session, for any file at all: repeated ids, negative ids,
 illegal ranges and ranges of unknown files included.
 */
module TraceProcessing {
  import opened Bytes
  import opened TraceFiles
  import opened SystemCalls
  import opened Sessions
  import opened Stores
  import PrefetchTasks
  import opened PageCacheMerge
  import opened TraceIndex
  import opened CompileThenPrefetch
  import opened Wrappers

  /// The index.

  // The first name the index gives to an id.
  function NameOf(index: seq<IndexEntry>, i: nat): Option<Text> {
    if index == [] then None
    else if index[0].id == i then Some(index[0].fileName)
    else NameOf(index[1..], i)
  }

  lemma {:induction false} NameOfMore(front: seq<IndexEntry>, last: IndexEntry, i: nat)
    ensures NameOf(front + [last], i) ==
            if NameOf(front, i).Some? then NameOf(front, i) else if last.id == i then Some(last.fileName) else None
  {
    var all := front + [last];
    if front == [] {
      assert all[1..] == [];
    } else {
      assert all[1..] == front[1..] + [last];
      NameOfMore(front[1..], last, i);
    }
  }

  // The session knows the path ids of the index, each by its first name, and has asked for nothing.
  ghost predicate KnowsIndex(s: Session, index: seq<IndexEntry>) {
    s.paths.Keys == s.fds.Keys &&
    (forall i: nat :: i in s.paths <==> NameOf(index, i).Some?) &&
    (forall i <- s.paths :: NameOf(index, i) == Some(s.paths[i])) &&
    forall i :: EntriesOf(s, i) == []
  }

  lemma RegisterOne(s: Session, log: Log, env: Environment, pathId: nat, filePath: Text)
    requires s.paths.Keys == s.fds.Keys
    ensures var s' := Register(s, log, env, pathId, filePath).session;
            s'.id == s.id && s'.description == s.description && s'.paths.Keys == s'.fds.Keys &&
            s'.paths == (if pathId in s.paths then s.paths else s.paths[pathId := filePath]) &&
            forall i :: EntriesOf(s', i) == EntriesOf(s, i)
  {
  }

  lemma {:induction false} IndexIsKnown(id: nat, description: Text, log: Log, env: Environment, index: seq<IndexEntry>)
    ensures var s := RegisterAll(Fresh(id, description), log, env, index).session;
            s.id == id && s.description == description && KnowsIndex(s, index)
  {
    hide Register, EntriesOf, NameOf;
    if index == [] {
      NothingKnown(id, description);
    } else {
      var front, last := index[..|index| - 1], index[|index| - 1];
      IndexIsKnown(id, description, log, env, front);
      var before := RegisterAll(Fresh(id, description), log, env, front);
      assert index == front + [last];
      forall i: nat
        ensures NameOf(index, i) ==
                if NameOf(front, i).Some? then NameOf(front, i) else if last.id == i then Some(last.fileName) else None
      {
        NameOfMore(front, last, i);
      }
      if 0 <= last.id {
        RegisterOne(before.session, before.log, env, last.id, last.fileName);
      }
    }
  }

  lemma NothingKnown(id: nat, description: Text)
    ensures KnowsIndex(Fresh(id, description), [])
  {
  }

  /// The list.

  // The ranges of one file, in order: those with a length and an offset that are not negative.
  function RangesOf(list: seq<FileEntry>, i: nat, kind: nat): seq<Entry> {
    if list == [] then [] else
    var before, last := RangesOf(list[..|list| - 1], i, kind), list[|list| - 1];
    if last.fileLength < 0 || last.fileOffset < 0 || AsSize(last.indexId) != i then before
    else before + [Entry(i, kind, last.fileLength, last.fileOffset)]
  }

  // int64 to size_t is the number modulo 2^64.
  lemma AsSizeWraps(value: int)
    requires -0x8000_0000_0000_0000 <= value < 0x8000_0000_0000_0000
    ensures AsSize(value) == value % 0x1_0000_0000_0000_0000
  {
  }

  lemma UnknownPath(s: Session, log: Log, env: Environment, pathId: nat, kind: nat, length: nat, offset: nat)
    requires pathId !in s.fds
    ensures var o := ReadAhead(s, log, env, pathId, kind, length, offset);
            o.session.id == s.id && o.session.paths == s.paths && o.session.fds == s.fds && o.log == log &&
            forall i :: EntriesOf(o.session, i) == EntriesOf(s, i)
  {
  }

  lemma DescriptionStays(s: Session, log: Log, env: Environment, pathId: nat, kind: nat, entry: FileEntry)
    requires Legal(entry)
    ensures ReadAhead(s, log, env, pathId, kind, entry.fileLength, entry.fileOffset).session.description == s.description
  {
  }

  lemma {:induction false} RangesAreAsked(s: Session, log: Log, env: Environment, kind: nat, list: seq<FileEntry>, i: nat)
    ensures var o := ReadAheadAll(s, log, env, kind, list).session;
            o.id == s.id && o.description == s.description && o.paths == s.paths && o.fds == s.fds &&
            Asked(EntriesOf(o, i)) == Asked(EntriesOf(s, i)) + if i in s.fds then RangesOf(list, i, kind) else []
  {
    hide ReadAhead, EntriesOf, Asked, AsSize;
    if list != [] {
      var front, last := list[..|list| - 1], list[|list| - 1];
      RangesAreAsked(s, log, env, kind, front, i);
      var before := ReadAheadAll(s, log, env, kind, front);
      if 0 <= last.fileLength && 0 <= last.fileOffset {
        DescriptionStays(before.session, before.log, env, AsSize(last.indexId), kind, last);
        var pathId := AsSize(last.indexId);
        if pathId in s.fds {
          ReadAheadAsks(before.session, before.log, env, pathId, kind, last.fileLength, last.fileOffset);
        } else {
          UnknownPath(before.session, before.log, env, pathId, kind, last.fileLength, last.fileOffset);
        }
      }
    }
  }

  /// The whole file.

  // What a session holds after processing a file.
  ghost predicate HoldsFile(s: Session, file: TraceFile, kind: nat) {
    s.paths.Keys == s.fds.Keys &&
    (forall i: nat :: i in s.paths <==> NameOf(file.index, i).Some?) &&
    (forall i <- s.paths :: NameOf(file.index, i) == Some(s.paths[i])) &&
    forall i: nat :: Asked(EntriesOf(s, i)) == if i in s.paths then RangesOf(file.list, i, kind) else []
  }

  lemma FileIsProcessed(id: nat, description: Text, log: Log, env: Environment, kind: nat, file: TraceFile)
    ensures var s := Process(Fresh(id, description), log, env, kind, file).session;
            s.id == id && s.description == description && HoldsFile(s, file, kind)
  {
    hide RegisterAll, ReadAheadAll, EntriesOf, Asked, NameOf, RangesOf;
    IndexIsKnown(id, description, log, env, file.index);
    var registered := RegisterAll(Fresh(id, description), log, env, file.index);
    NothingAsked();
    var s := Process(Fresh(id, description), log, env, kind, file).session;
    forall i: nat
      ensures s.paths == registered.session.paths && s.fds == registered.session.fds
      ensures Asked(EntriesOf(s, i)) == if i in s.paths then RangesOf(file.list, i, kind) else []
    {
      RangesAreAsked(registered.session, registered.log, env, kind, file.list, i);
    }
    RangesAreAsked(registered.session, registered.log, env, kind, file.list, 0);
  }

  /**
   A fresh session that is given a descriptor knows exactly the files of the trace file behind it, and has
   asked, by advice, for exactly their legal ranges, in order; without a readable file it does nothing.
   */
  lemma DescriptorIsProcessed(id: nat, description: Text, log: Log, env: Environment, fd: int)
    ensures var o := ProcessFd(Fresh(id, description), log, env, fd);
            match env.trace(log, fd)
            case None => o == Outcome(Fresh(id, description), log, false)
            case Some(file) => o.ok && HoldsFile(o.session, file, 0)
  {
    hide Process, HoldsFile;
    if env.trace(log, fd).Some? {
      FileIsProcessed(id, description, log, env, FADVISE, env.trace(log, fd).value);
      AlwaysOk(Fresh(id, description), log, env, FADVISE, env.trace(log, fd).value);
    }
  }

  lemma AlwaysOk(s: Session, log: Log, env: Environment, kind: nat, file: TraceFile)
    ensures Process(s, log, env, kind, file).ok
  {
    hide RegisterAll, ReadAhead;
    var registered := RegisterAll(s, log, env, file.index);
    AllOk(registered.session, registered.log, env, kind, file.list);
  }

  lemma {:induction false} AllOk(s: Session, log: Log, env: Environment, kind: nat, list: seq<FileEntry>)
    ensures ReadAheadAll(s, log, env, kind, list).ok
  {
    if list != [] {
      AllOk(s, log, env, kind, list[..|list| - 1]);
    }
  }

  // And so does the session a store creates from a descriptor.
  lemma CreatedFromDescriptor(w: World, env: Environment, sid: nat, description: Text, fd: int)
    requires sid !in w.store && env.trace(w.log, fd).Some?
    ensures var after := Apply(w, env, CreateFromFd(sid, description, fd)).store;
            sid in after && HoldsFile(after[sid], env.trace(w.log, fd).value, 0)
  {
    hide ProcessFd, HoldsFile;
    DescriptorIsProcessed(sid, description, w.log, env, fd);
  }

  // For a compiled file these are the added pages of each file, in order.
  lemma CompiledFromDescriptor(
    adds: seq<CompilerEvent>, file: TraceFile, w: World, env: Environment, sid: nat, description: Text, fd: int)
    requires Indexes(adds, file) && forall e <- adds :: e.index < 0x8_0000_0000_0000
    requires sid !in w.store && env.trace(w.log, fd) == Some(file)
    ensures var o := ProcessFd(Fresh(sid, description), w.log, env, fd);
            var s := Apply(w, env, CreateFromFd(sid, description, fd)).store[sid];
            s == o.session && o.ok &&
            s.paths == Numbered(Names(adds), |Names(adds)|) &&
            forall i: nat | i < |Names(adds)| :: Asked(EntriesOf(s, i)) == Wanted(adds, Names(adds)[i], i, FADVISE)
  {
    hide Process, Wanted, Asked, EntriesOf, Names, Indexes;
    CompiledFileIsPrefetched(adds, file, sid, description, w.log, env, FADVISE);
    AlwaysOk(Fresh(sid, description), w.log, env, FADVISE, file);
  }

  // A task that finds its trace file leaves a session that holds the file.
  lemma TaskHoldsItsFile(w: World, env: Environment, id: nat, path: Text, kind: nat, file: Option<TraceFile>)
    ensures var after := PrefetchTasks.Begin(w, env, id, path, kind, file).store;
            id in after && (file.Some? ==> after[id].description == path && HoldsFile(after[id], file.value, kind))
  {
    hide Process, HoldsFile;
    if file.Some? {
      FileIsProcessed(id, path, w.log, env, kind, file.value);
    }
  }
}
