/**
 From compiled events to prefetching: a session that processes the written file finds a registered
 path for every range in it, and reads ahead exactly the pages that were added.
 */
module CompileThenPrefetch {
  import opened Wrappers
  import opened Bytes
  import opened TraceFiles
  import opened SystemCalls
  import opened Sessions
  import opened SessionResources
  import opened PageCacheMerge
  import opened TraceIndex

  /// Registering the index.

  function Numbered(names: seq<Text>, n: nat): map<nat, Text>
    requires n <= |names|
  {
    map i: nat | i < n :: names[i]
  }

  lemma RegisterNew(s: Session, log: Log, env: Environment, pathId: nat, filePath: Text)
    requires pathId !in s.paths && pathId !in s.fds
    ensures var s' := Register(s, log, env, pathId, filePath).session;
            s'.id == s.id && s'.description == s.description &&
            s'.paths == s.paths[pathId := filePath] && s'.fds.Keys == s.fds.Keys + {pathId} &&
            forall i :: EntriesOf(s', i) == EntriesOf(s, i)
  {
  }

  lemma RegisterLast(s: Session, log: Log, env: Environment, index: seq<IndexEntry>)
    requires index != [] && 0 <= index[|index| - 1].id
    ensures var before, last := RegisterAll(s, log, env, index[..|index| - 1]), index[|index| - 1];
            RegisterAll(s, log, env, index).session ==
            Register(before.session, before.log, env, last.id, last.fileName).session
  {
    hide Register;
  }

  lemma NextNumbered(names: seq<Text>, n: nat)
    requires 0 < n <= |names|
    ensures n - 1 !in Numbered(names, n - 1)
    ensures Numbered(names, n) == Numbered(names, n - 1)[n - 1 := names[n - 1]]
  {
  }

  // After registering the first `n` files, exactly the ids below `n` are known, each under its name.
  lemma {:induction false} DenseRegistration(
    adds: seq<CompilerEvent>, file: TraceFile, id: nat, description: Text, log: Log, env: Environment, n: nat)
    requires Indexes(adds, file) && n <= |file.index|
    ensures var s := RegisterAll(Fresh(id, description), log, env, file.index[..n]).session;
            s.id == id && s.description == description &&
            s.paths == Numbered(Names(adds), n) && s.fds.Keys == s.paths.Keys &&
            forall i :: EntriesOf(s, i) == []
  {
    hide Register, EntriesOf, Points, Names;
    if n == 0 {
      NoEntries(id, description);
    } else {
      hide Fresh, Numbered, RegisterAll;
      DenseRegistration(adds, file, id, description, log, env, n - 1);
      assert file.index[..n][..n - 1] == file.index[..n - 1];
      assert file.index[n - 1] == IndexEntry(n - 1, Names(adds)[n - 1]);
      var before := RegisterAll(Fresh(id, description), log, env, file.index[..n - 1]);
      RegisterLast(Fresh(id, description), log, env, file.index[..n]);
      NextNumbered(Names(adds), n);
      RegisterNew(before.session, before.log, env, n - 1, Names(adds)[n - 1]);
    }
  }

  lemma NoEntries(id: nat, description: Text)
    ensures forall i :: EntriesOf(Fresh(id, description), i) == []
  {
  }

  // No id is registered twice, so no descriptor is abandoned.
  lemma {:induction false} RegistrationIsFresh(
    adds: seq<CompilerEvent>, file: TraceFile, id: nat, description: Text, log: Log, env: Environment)
    requires Indexes(adds, file)
    ensures FreshIndex(Fresh(id, description), log, env, file.index)
  {
    forall k | 0 <= k < |file.index|
      ensures file.index[k].id == k && k !in RegisterAll(Fresh(id, description), log, env, file.index[..k]).session.fds
    {
      DenseRegistration(adds, file, id, description, log, env, k);
    }
  }

  /// Reading the list ahead.

  // The entries an add event of file `pathId` asks for.
  function Wanted(adds: seq<CompilerEvent>, name: Text, pathId: nat, kind: nat): seq<Entry> {
    if adds == [] then [] else
    var last := adds[|adds| - 1];
    Wanted(adds[..|adds| - 1], name, pathId, kind) +
    if last.filename == name then [Entry(pathId, kind, PAGE_SIZE, last.index * PAGE_SIZE)] else []
  }

  function Asked(list: seq<EntryMapping>): seq<Entry> {
    seq(|list|, i requires 0 <= i < |list| => list[i].entry)
  }

  lemma ReadAheadAsks(s: Session, log: Log, env: Environment, pathId: nat, kind: nat, length: nat, offset: nat)
    requires pathId in s.fds
    ensures var o := ReadAhead(s, log, env, pathId, kind, length, offset);
            o.session.id == s.id && o.session.paths == s.paths && o.session.fds == s.fds &&
            Asked(EntriesOf(o.session, pathId)) == Asked(EntriesOf(s, pathId)) + [Entry(pathId, kind, length, offset)] &&
            forall other | other != pathId :: EntriesOf(o.session, other) == EntriesOf(s, other)
  {
    AttemptBalance(log, env, Owner(s.id, pathId), s.fds[pathId], Entry(pathId, kind, length, offset));
  }

  // Every entry of the list refers to a path in `s`, and lies within the file sizes of the format.
  ghost predicate AllRegistered(s: Session, list: seq<FileEntry>) {
    forall entry <- list :: Legal(entry) && AsSize(entry.indexId) in s.fds
  }

  lemma NothingAsked()
    ensures Asked([]) == []
  {
  }

  // Reading ahead keeps the paths, so no range of the list misses its path.
  lemma {:induction false} ReadAheadKeepsPaths(s: Session, log: Log, env: Environment, kind: nat, list: seq<FileEntry>)
    requires AllRegistered(s, list)
    ensures var o := ReadAheadAll(s, log, env, kind, list).session;
            o.id == s.id && o.paths == s.paths && o.fds == s.fds
  {
    if list != [] {
      hide ReadAhead;
      var front, last := list[..|list| - 1], list[|list| - 1];
      assert forall e <- front :: e in list;
      assert last in list;
      ReadAheadKeepsPaths(s, log, env, kind, front);
      var before := ReadAheadAll(s, log, env, kind, front);
      ReadAheadAsks(before.session, before.log, env, AsSize(last.indexId), kind, last.fileLength, last.fileOffset);
    }
  }

  // One more entry of the list.
  lemma LastReadAhead(s: Session, log: Log, env: Environment, kind: nat, list: seq<FileEntry>, n: nat)
    requires 0 < n <= |list| && AllRegistered(s, list)
    ensures var before, last := ReadAheadAll(s, log, env, kind, list[..n - 1]), list[n - 1];
            AsSize(last.indexId) in before.session.fds &&
            ReadAheadAll(s, log, env, kind, list[..n]).session ==
            ReadAhead(before.session, before.log, env, AsSize(last.indexId), kind, last.fileLength, last.fileOffset).session
  {
    hide ReadAhead;
    var front, last := list[..n - 1], list[n - 1];
    assert list[..n][..n - 1] == front && last in list;
    assert forall x <- front :: x in list;
    ReadAheadKeepsPaths(s, log, env, kind, front);
  }

  // It asks for its range if it is about the path, and otherwise for nothing of it.
  lemma LastAsked(s: Session, log: Log, env: Environment, kind: nat, list: seq<FileEntry>, n: nat, i: nat)
    requires 0 < n <= |list| && AllRegistered(s, list)
    ensures var last := list[n - 1];
            0 <= last.fileLength && 0 <= last.fileOffset &&
            Asked(EntriesOf(ReadAheadAll(s, log, env, kind, list[..n]).session, i)) ==
            Asked(EntriesOf(ReadAheadAll(s, log, env, kind, list[..n - 1]).session, i)) +
            if AsSize(last.indexId) == i then [Entry(i, kind, last.fileLength, last.fileOffset)] else []
  {
    hide ReadAhead, ReadAheadAll, EntriesOf, Asked;
    LastReadAhead(s, log, env, kind, list, n);
    var before, last := ReadAheadAll(s, log, env, kind, list[..n - 1]), list[n - 1];
    assert last in list;
    ReadAheadAsks(before.session, before.log, env, AsSize(last.indexId), kind, last.fileLength, last.fileOffset);
  }

  lemma LastWanted(adds: seq<CompilerEvent>, name: Text, pathId: nat, kind: nat, n: nat)
    requires 0 < n <= |adds|
    ensures Wanted(adds[..n], name, pathId, kind) ==
            Wanted(adds[..n - 1], name, pathId, kind) +
            if adds[n - 1].filename == name then [Entry(pathId, kind, PAGE_SIZE, adds[n - 1].index * PAGE_SIZE)] else []
  {
    assert adds[..n][..n - 1] == adds[..n - 1];
  }

  // The entry is the page of the event, under the given id exactly if the file has the given name.
  predicate IsRangeOf(entry: FileEntry, e: CompilerEvent, name: Text, id: nat) {
    entry.fileOffset == e.index * PAGE_SIZE && entry.fileLength == PAGE_SIZE &&
    (AsSize(entry.indexId) == id <==> e.filename == name)
  }

  lemma RangeOfAdd(adds: seq<CompilerEvent>, file: TraceFile, k: nat, i: nat)
    requires Indexes(adds, file) && forall e <- adds :: e.index < 0x8_0000_0000_0000
    requires k < |adds| && i < |file.index|
    ensures IsRangeOf(file.list[k], adds[k], Names(adds)[i], i)
  {
    hide OffsetOf, Names;
    assert Points(file, file.list[k], adds[k]) && adds[k] in adds;
    OffsetIsExact(adds[k].index);
    NamesAreDistinct(adds);
  }

  lemma {:induction false} ReadAheadWanted(
    adds: seq<CompilerEvent>, list: seq<FileEntry>, s: Session, log: Log, env: Environment, kind: nat, n: nat,
    name: Text, id: nat)
    requires AllRegistered(s, list) && |list| == |adds| && n <= |adds|
    requires forall k | 0 <= k < |adds| :: IsRangeOf(list[k], adds[k], name, id)
    ensures Asked(EntriesOf(ReadAheadAll(s, log, env, kind, list[..n]).session, id)) ==
            Asked(EntriesOf(s, id)) + Wanted(adds[..n], name, id, kind)
  {
    hide ReadAhead, EntriesOf, Asked, AllRegistered;
    if n > 0 {
      hide ReadAheadAll, Wanted;
      ReadAheadWanted(adds, list, s, log, env, kind, n - 1, name, id);
      assert IsRangeOf(list[n - 1], adds[n - 1], name, id);
      LastAsked(s, log, env, kind, list, n, id);
      LastWanted(adds, name, id, kind, n);
    }
  }

  /**
   The whole way. Whatever the kernel answers, a fresh session that processes the file knows exactly
   the files of the events, finds the path of every range, and has asked for exactly the added pages
   of each file, in order; and no descriptor was abandoned.
   */
  lemma CompiledFileIsPrefetched(
    adds: seq<CompilerEvent>, file: TraceFile, id: nat, description: Text, log: Log, env: Environment, kind: nat)
    requires Indexes(adds, file) && forall e <- adds :: e.index < 0x8_0000_0000_0000
    ensures AllRegistered(RegisterAll(Fresh(id, description), log, env, file.index).session, file.list)
    ensures var s := Process(Fresh(id, description), log, env, kind, file).session;
            s.paths == Numbered(Names(adds), |Names(adds)|) && s.fds.Keys == s.paths.Keys &&
            forall i: nat | i < |Names(adds)| :: Asked(EntriesOf(s, i)) == Wanted(adds, Names(adds)[i], i, kind)
    ensures NoLeak(log, Process(Fresh(id, description), log, env, kind, file).log)
  {
    hide OffsetOf, RegisterAll, ReadAheadAll, Wanted, Asked, EntriesOf, Points, Names, IsRangeOf;
    DenseRegistration(adds, file, id, description, log, env, |file.index|);
    assert file.index[..|file.index|] == file.index;
    var registered := RegisterAll(Fresh(id, description), log, env, file.index);
    EntriesAreLegal(adds, file);
    assert AllRegistered(registered.session, file.list);
    ReadAheadKeepsPaths(registered.session, registered.log, env, kind, file.list);
    NothingAsked();
    forall i: nat | i < |Names(adds)|
      ensures Asked(EntriesOf(Process(Fresh(id, description), log, env, kind, file).session, i)) ==
              Wanted(adds, Names(adds)[i], i, kind)
    {
      forall k | 0 <= k < |adds| ensures IsRangeOf(file.list[k], adds[k], Names(adds)[i], i) {
        RangeOfAdd(adds, file, k, i);
      }
      ReadAheadWanted(adds, file.list, registered.session, registered.log, env, kind, |adds|, Names(adds)[i], i);
      assert file.list[..|adds|] == file.list && adds[..|adds|] == adds;
    }
    RegistrationIsFresh(adds, file, id, description, log, env);
    RegisterAllNoLeak(Fresh(id, description), log, env, file.index);
    ReadAheadAllNoLeak(registered.session, registered.log, env, kind, file.list);
  }

  lemma EntriesAreLegal(adds: seq<CompilerEvent>, file: TraceFile)
    requires Indexes(adds, file) && forall e <- adds :: e.index < 0x8_0000_0000_0000
    ensures forall entry <- file.list :: Legal(entry) && 0 <= entry.indexId < |Names(adds)|
  {
    hide OffsetOf;
    forall entry <- file.list ensures Legal(entry) && 0 <= entry.indexId < |Names(adds)| {
      var k :| 0 <= k < |file.list| && file.list[k] == entry;
      assert Points(file, entry, adds[k]) && adds[k] in adds;
      OffsetIsExact(adds[k].index);
    }
  }

  /// The size of a prefetch.

  // The sum of the legal lengths, in a size_t.
  function LengthSum(list: seq<FileEntry>): nat {
    if list == [] then 0 else
    var before, last := LengthSum(list[..|list| - 1]), list[|list| - 1];
    if Legal(last) then (before + last.fileLength) % 0x1_0000_0000_0000_0000 else before
  }

  method PrefetchSizeInBytes(file: Option<TraceFile>) returns (size: Option<nat>)
    ensures size == if file.None? then None else Some(LengthSum(file.value.list))
  {
    if file.None? {
      return None;
    }
    var list, lengthSum: nat := file.value.list, 0;
    for i := 0 to |list|
      invariant lengthSum == LengthSum(list[..i])
    {
      assert list[..i + 1][..i] == list[..i];
      if !Legal(list[i]) {
        continue;
      }
      lengthSum := (lengthSum + list[i].fileLength) % 0x1_0000_0000_0000_0000;
    }
    assert list[..|list|] == list;
    return Some(lengthSum);
  }

  lemma {:induction false} PagesAddUp(list: seq<FileEntry>)
    requires forall entry <- list :: Legal(entry) && entry.fileLength == PAGE_SIZE
    ensures LengthSum(list) == (PAGE_SIZE * |list|) % 0x1_0000_0000_0000_0000
  {
    if list != [] {
      var front, last := list[..|list| - 1], list[|list| - 1];
      assert forall e <- front :: e in list;
      assert last in list;
      PagesAddUp(front);
      SumModulo(PAGE_SIZE * |front|, PAGE_SIZE);
      assert PAGE_SIZE * |list| == PAGE_SIZE * |front| + PAGE_SIZE;
    }
  }

  lemma SumModulo(a: nat, b: nat)
    ensures (a % 0x1_0000_0000_0000_0000 + b) % 0x1_0000_0000_0000_0000 == (a + b) % 0x1_0000_0000_0000_0000
  {
  }

  // The size of a compiled file is a page for each add event.
  lemma SizeIsAPagePerAdd(adds: seq<CompilerEvent>, file: TraceFile)
    requires Indexes(adds, file) && forall e <- adds :: e.index < 0x8_0000_0000_0000
    ensures LengthSum(file.list) == (PAGE_SIZE * |adds|) % 0x1_0000_0000_0000_0000
  {
    hide OffsetOf;
    EntriesAreLegal(adds, file);
    forall entry <- file.list ensures entry.fileLength == PAGE_SIZE {
      var k :| 0 <= k < |file.list| && file.list[k] == entry;
      assert Points(file, entry, adds[k]);
    }
    PagesAddUp(file.list);
  }

  function TrueSum(list: seq<FileEntry>): nat {
    if list == [] then 0
    else TrueSum(list[..|list| - 1]) + if Legal(list[|list| - 1]) then list[|list| - 1].fileLength else 0
  }

  // The size of any file is the sum of the lengths that are asked for, as far as 64 bits hold it.
  lemma {:induction false} SizeIsTheSum(list: seq<FileEntry>)
    ensures LengthSum(list) == TrueSum(list) % 0x1_0000_0000_0000_0000
  {
    if list != [] {
      var last := list[|list| - 1];
      SizeIsTheSum(list[..|list| - 1]);
      if Legal(last) {
        SumModulo(TrueSum(list[..|list| - 1]), last.fileLength);
      }
    }
  }
}
