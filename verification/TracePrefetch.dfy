/**
 The whole way from trace events to the pages read ahead: join with the file names, blacklist, merge,
 index file, and the session that processes it.
 */
module TracePrefetch {
  import opened Bytes
  import opened TraceFiles
  import opened SystemCalls
  import opened Sessions
  import opened Inodes
  import opened PageCacheTraces
  import opened PageCacheMerge
  import opened EventJoin
  import opened TraceIndex
  import opened CompileThenPrefetch
  import Search = InodeSearch

  // What the compiler keeps of a resolved event.
  function Compiled(r: ResolvedEvent): CompilerEvent {
    CompilerEvent(r.filename, r.event.timestampRelative, r.event.addToPageCache, r.event.mm.index)
  }

  function CompiledAll(resolved: seq<ResolvedEvent>): seq<CompilerEvent> {
    seq(|resolved|, i requires 0 <= i < |resolved| => Compiled(resolved[i]))
  }

  // The input of the merge.
  function CompilerInput(m: InodeMap, events: seq<PageCacheEvent>, blacklisted: Text -> bool): seq<CompilerEvent> {
    Keep(CompiledAll(Join(m, events)), blacklisted)
  }

  // The event adds this page of this file, which has a name that is not blacklisted.
  predicate AddsPage(m: InodeMap, blacklisted: Text -> bool, e: PageCacheEvent, name: Text, page: uint64) {
    InodeOf(e) in m && m[InodeOf(e)] == name && !blacklisted(name) && e.addToPageCache && e.mm.index == page
  }

  ghost predicate IsAdded(
    m: InodeMap, events: seq<PageCacheEvent>, blacklisted: Text -> bool, name: Text, page: uint64)
  {
    exists e <- events :: AddsPage(m, blacklisted, e, name, page)
  }

  /// Which keys reach the file.

  lemma {:induction false} JoinMembers(m: InodeMap, events: seq<PageCacheEvent>)
    ensures forall r :: r in Join(m, events) <==>
              r.event in events && InodeOf(r.event) in m && r.filename == m[InodeOf(r.event)]
  {
    hide InodeOf;
    if events != [] {
      var front, last := events[..|events| - 1], events[|events| - 1];
      JoinMembers(m, front);
      assert events == front + [last];
      assert forall r :: r in Join(m, events) <==> r in Join(m, front) || r in Joined(m, last);
    }
  }

  lemma InputKeys(m: InodeMap, events: seq<PageCacheEvent>, blacklisted: Text -> bool, name: Text, page: uint64)
    ensures (exists x <- CompilerInput(m, events, blacklisted) :: KeyOf(x) == Key(name, true, page)) <==>
            IsAdded(m, events, blacklisted, name, page)
  {
    hide InodeOf, Join, Keep;
    var resolved := Join(m, events);
    JoinMembers(m, events);
    KeepElements(CompiledAll(resolved), blacklisted);
    if x :| x in CompilerInput(m, events, blacklisted) && KeyOf(x) == Key(name, true, page) {
      var i :| 0 <= i < |resolved| && CompiledAll(resolved)[i] == x;
      assert resolved[i] in resolved;
      assert AddsPage(m, blacklisted, resolved[i].event, name, page);
    }
    if e :| e in events && AddsPage(m, blacklisted, e, name, page) {
      var r := ResolvedEvent(name, e);
      assert r in resolved;
      var i :| 0 <= i < |resolved| && resolved[i] == r;
      assert CompiledAll(resolved)[i] == Compiled(r);
      assert Compiled(r) in CompilerInput(m, events, blacklisted);
    }
  }

  ghost predicate KeysDiffer(events: seq<CompilerEvent>) {
    forall i, j | 0 <= i < j < |events| :: KeyOf(events[i]) != KeyOf(events[j])
  }

  lemma {:induction false} AddsMembers(events: seq<CompilerEvent>)
    ensures forall e :: e in Adds(events) <==> e in events && e.addToPageCache
    ensures KeysDiffer(events) ==> KeysDiffer(Adds(events))
  {
    if events != [] {
      var front, last := events[..|events| - 1], events[|events| - 1];
      AddsMembers(front);
      assert events == front + [last];
      if KeysDiffer(events) {
        assert forall i | 0 <= i < |front| :: front[i] == events[i];
        forall e <- Adds(front) ensures KeyOf(e) != KeyOf(last) {
          var i :| 0 <= i < |front| && front[i] == e;
          assert KeyOf(events[i]) != KeyOf(events[|events| - 1]);
        }
      }
    }
  }

  /// How often a page is asked for.

  function CountOf(adds: seq<CompilerEvent>, name: Text, page: uint64): nat {
    if adds == [] then 0
    else CountOf(adds[..|adds| - 1], name, page) +
         if adds[|adds| - 1].filename == name && adds[|adds| - 1].index == page then 1 else 0
  }

  lemma {:induction false} WantedCount(adds: seq<CompilerEvent>, name: Text, pathId: nat, kind: nat, page: uint64)
    ensures multiset(Wanted(adds, name, pathId, kind))[Entry(pathId, kind, PAGE_SIZE, page * PAGE_SIZE)] ==
            CountOf(adds, name, page)
  {
    if adds != [] {
      WantedCount(adds[..|adds| - 1], name, pathId, kind, page);
    }
  }

  ghost predicate HasKey(events: seq<CompilerEvent>, key: Key) {
    exists e <- events :: KeyOf(e) == key
  }

  lemma OneMoreKey(front: seq<CompilerEvent>, last: CompilerEvent, key: Key)
    ensures HasKey(front + [last], key) <==> HasKey(front, key) || KeyOf(last) == key
    ensures KeysDiffer(front + [last]) ==> KeysDiffer(front) && !HasKey(front, KeyOf(last))
  {
    var all := front + [last];
    assert last in all && forall e <- front :: e in all;
    assert forall i | 0 <= i < |front| :: all[i] == front[i];
    if KeysDiffer(all) {
      forall e <- front ensures KeyOf(e) != KeyOf(last) {
        var i :| 0 <= i < |front| && front[i] == e;
        assert KeyOf(all[i]) != KeyOf(all[|front|]);
      }
    }
  }

  lemma {:induction false} CountOnce(adds: seq<CompilerEvent>, name: Text, page: uint64)
    requires KeysDiffer(adds) && forall e <- adds :: e.addToPageCache
    ensures CountOf(adds, name, page) == if HasKey(adds, Key(name, true, page)) then 1 else 0
  {
    hide KeysDiffer, HasKey;
    if adds != [] {
      var front, last := adds[..|adds| - 1], adds[|adds| - 1];
      assert adds == front + [last];
      OneMoreKey(front, last, Key(name, true, page));
      CountOnce(front, name, page);
    } else {
      NoKey(Key(name, true, page));
    }
  }

  lemma NoKey(key: Key)
    ensures !HasKey([], key)
  {
  }

  lemma OutputCounts(
    m: InodeMap, events: seq<PageCacheEvent>, blacklisted: Text -> bool, output: seq<CompilerEvent>, name: Text, page: uint64)
    requires CanonicalMerge(CompilerInput(m, events, blacklisted), output)
    ensures CountOf(Adds(output), name, page) == if IsAdded(m, events, blacklisted, name, page) then 1 else 0
    ensures IsAdded(m, events, blacklisted, name, page) ==> name in Names(Adds(output))
  {
    hide CompilerInput, Adds, CountOf, Names, CanonicalMerge, IsAdded, KeysDiffer;
    var input := CompilerInput(m, events, blacklisted);
    InputKeys(m, events, blacklisted, name, page);
    OneEventPerKey(input, output);
    KeysOfOutput(output);
    AddsMembers(output);
    CountOnce(Adds(output), name, page);
    NamesAreDistinct(Adds(output));
    SameKeys(input, output, Key(name, true, page));
    if e :| e in output && KeyOf(e) == Key(name, true, page) {
      assert e in Adds(output);
    }
  }

  lemma KeysOfOutput(output: seq<CompilerEvent>)
    requires forall i, j | 0 <= i < j < |output| :: KeyOf(output[i]) != KeyOf(output[j])
    ensures KeysDiffer(output)
  {
  }

  lemma SameKeys(input: seq<CompilerEvent>, output: seq<CompilerEvent>, key: Key)
    requires (set e | e in output :: KeyOf(e)) == (set x | x in input :: KeyOf(x))
    ensures (exists e <- output :: KeyOf(e) == key) <==> exists x <- input :: KeyOf(x) == key
  {
    var outKeys, inKeys := (set e | e in output :: KeyOf(e)), (set x | x in input :: KeyOf(x));
    assert outKeys == inKeys;
    assert key in outKeys <==> exists e <- output :: KeyOf(e) == key;
    assert key in inKeys <==> exists x <- input :: KeyOf(x) == key;
  }

  /**
   From events to read-ahead. The file compiled from some joined events, processed by a fresh session,
   makes it ask for every page the events add to a named file exactly once, and for no other page of it;
   and every file with an added page is registered. The page indices are below 2^51.
   */
  lemma AddedPagesAreReadOnce(
    m: InodeMap, events: seq<PageCacheEvent>, blacklisted: Text -> bool, output: seq<CompilerEvent>, file: TraceFile,
    id: nat, description: Text, log: Log, env: Environment, kind: nat, name: Text, page: uint64)
    requires CanonicalMerge(CompilerInput(m, events, blacklisted), output) && Indexes(Adds(output), file)
    requires forall e <- Adds(output) :: e.index < 0x8_0000_0000_0000
    ensures IsAdded(m, events, blacklisted, name, page) ==> name in Names(Adds(output))
    ensures var s := Process(Fresh(id, description), log, env, kind, file).session;
            forall i: nat | i < |Names(Adds(output))| && Names(Adds(output))[i] == name ::
              i in s.paths && s.paths[i] == name &&
              multiset(Asked(EntriesOf(s, i)))[Entry(i, kind, PAGE_SIZE, page * PAGE_SIZE)] ==
                if IsAdded(m, events, blacklisted, name, page) then 1 else 0
  {
    hide CompilerInput, Adds, CountOf, Names, CanonicalMerge, IsAdded, Process, Indexes, Wanted, Asked, EntriesOf;
    var adds := Adds(output);
    OutputCounts(m, events, blacklisted, output, name, page);
    CompiledFileIsPrefetched(adds, file, id, description, log, env, kind);
    forall i: nat | i < |Names(adds)| && Names(adds)[i] == name
      ensures multiset(Wanted(adds, name, i, kind))[Entry(i, kind, PAGE_SIZE, page * PAGE_SIZE)] ==
              if IsAdded(m, events, blacklisted, name, page) then 1 else 0
    {
      WantedCount(adds, name, i, kind, page);
    }
  }

  // With the search in front, an event whose file some item of the haystack fits is joined under its name.
  lemma FoundPagesAreAdded(
    events: seq<PageCacheEvent>, order: seq<Inode>, fs: Search.FileSystem, haystack: seq<InodeResult>,
    blacklisted: Text -> bool, e: PageCacheEvent)
    requires multiset(order) == multiset(DistinctInodes(events)) && e in events && haystack != []
    requires e.addToPageCache && Search.FitCount(fs, true, haystack, InodeOf(e)) > 0
    ensures var m := NameMap(Search.Results(Search.Run(order, fs, true, haystack)));
            InodeOf(e) in m &&
            (!blacklisted(m[InodeOf(e)]) ==> IsAdded(m, events, blacklisted, m[InodeOf(e)], e.mm.index))
  {
    hide InodeOf, NameMap;
    KeptIffItsFileIsFound(events, order, fs, haystack, e);
    var m := NameMap(Search.Results(Search.Run(order, fs, true, haystack)));
    if !blacklisted(m[InodeOf(e)]) {
      assert AddsPage(m, blacklisted, e, m[InodeOf(e)], e.mm.index);
    }
  }

  // What the merge is given: of each event whose inode has a name that is not blacklisted, that name and its own
  // relative time, direction and page.
  lemma InputIsTheEvents(m: InodeMap, events: seq<PageCacheEvent>, blacklisted: Text -> bool, x: CompilerEvent)
    ensures x in CompilerInput(m, events, blacklisted) <==>
            !blacklisted(x.filename) &&
            exists e <- events ::
              InodeOf(e) in m && m[InodeOf(e)] == x.filename && e.timestampRelative == x.timestampRelative &&
              e.addToPageCache == x.addToPageCache && e.mm.index == x.index
  {
    hide InodeOf, Join, Keep;
    var resolved := Join(m, events);
    JoinMembers(m, events);
    KeepElements(CompiledAll(resolved), blacklisted);
    if x in CompiledAll(resolved) {
      var i :| 0 <= i < |resolved| && CompiledAll(resolved)[i] == x;
      assert resolved[i] in resolved;
    }
    forall e <- events | InodeOf(e) in m && m[InodeOf(e)] == x.filename && e.timestampRelative == x.timestampRelative &&
                         e.addToPageCache == x.addToPageCache && e.mm.index == x.index
      ensures x in CompiledAll(resolved)
    {
      var r := ResolvedEvent(x.filename, e);
      assert r in resolved;
      var i :| 0 <= i < |resolved| && resolved[i] == r;
      assert CompiledAll(resolved)[i] == x;
    }
  }
}
