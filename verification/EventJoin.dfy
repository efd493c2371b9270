/**
 Joining page-cache events with the file names of their inodes: one map of names is put in front of
 the event stream, and a scan carries the map along with each event.
 */
module EventJoin {
  import opened Wrappers
  import opened Bytes
  import opened Inodes
  import opened InodeSearch
  import opened PageCacheTraces

  type InodeMap = map<Inode, Text>

  datatype ResolvedEvent = ResolvedEvent(filename: Text, event: PageCacheEvent)

  // What the scan carries: the map and the latest event, as far as they have arrived.
  datatype CombinedState = CombinedState(inodeMap: Option<InodeMap>, ftraceEvent: Option<PageCacheEvent>)

  function Merge(current: CombinedState, delta: CombinedState): CombinedState {
    CombinedState(if delta.inodeMap.Some? then delta.inodeMap else current.inodeMap,
                  if delta.ftraceEvent.Some? then delta.ftraceEvent else current.ftraceEvent)
  }

  // The successfully resolved names; the first one for an inode stays.
  function NameMap(results: seq<InodeResult>): InodeMap {
    if results == [] then map[] else
    var before, last := NameMap(results[..|results| - 1]), results[|results| - 1];
    if last.Success? && last.inode !in before then before[last.inode := last.filename] else before
  }

  method ReduceResolvedInodesToMap(results: seq<InodeResult>) returns (m: InodeMap)
    ensures m == NameMap(results)
  {
    m := map[];
    for i := 0 to |results|
      invariant m == NameMap(results[..i])
    {
      assert results[..i + 1][..i] == results[..i];
      if results[i].Success? {
        if results[i].inode !in m {
          m := m[results[i].inode := results[i].filename];
        }
      }
    }
    assert results[..|results|] == results;
  }

  /// The plain join.

  function Joined(m: InodeMap, e: PageCacheEvent): seq<ResolvedEvent> {
    if InodeOf(e) in m then [ResolvedEvent(m[InodeOf(e)], e)] else []
  }

  function Join(m: InodeMap, events: seq<PageCacheEvent>): seq<ResolvedEvent> {
    if events == [] then [] else Join(m, events[..|events| - 1]) + Joined(m, events[|events| - 1])
  }

  // The stream the scan reads: the map, then the events.
  function Deltas(m: InodeMap, events: seq<PageCacheEvent>): seq<CombinedState> {
    [CombinedState(Some(m), None)] + seq(|events|, i requires 0 <= i < |events| => CombinedState(None, Some(events[i])))
  }

  /**
   The pipeline of concatenation, scan, filter and look-up comes to the plain join of the events with
   the map, in order.
   */
  method ResolvePageCacheEntries(deltas: seq<CombinedState>, ghost m: InodeMap, ghost events: seq<PageCacheEvent>)
    returns (resolved: seq<ResolvedEvent>)
    requires deltas == Deltas(m, events)
    ensures resolved == Join(m, events)
  {
    hide InodeOf;
    var state := CombinedState(None, None);
    resolved := [];
    for i := 0 to |deltas|
      invariant i == 0 ==> state == CombinedState(None, None) && resolved == []
      invariant i > 0 ==> state.inodeMap == Some(m) && resolved == Join(m, events[..i - 1])
    {
      state := Merge(state, deltas[i]);
      if i > 0 {
        assert events[..i][..i - 1] == events[..i - 1];
      }
      if state.inodeMap.Some? && state.ftraceEvent.Some? {
        var event := state.ftraceEvent.value;
        if InodeOf(event) in state.inodeMap.value {
          resolved := resolved + [ResolvedEvent(state.inodeMap.value[InodeOf(event)], event)];
        }
      }
    }
    assert events[..|events|] == events;
  }

  /// Which events are lost.

  // The inodes of some events, each once, in the order of first appearance.
  function DistinctInodes(events: seq<PageCacheEvent>): seq<Inode> {
    if events == [] then [] else
    var before, last := DistinctInodes(events[..|events| - 1]), InodeOf(events[|events| - 1]);
    if last in before then before else before + [last]
  }

  predicate Occurs(events: seq<PageCacheEvent>, i: Inode) {
    exists e <- events :: InodeOf(e) == i
  }

  lemma {:induction false} DistinctInodesOnce(events: seq<PageCacheEvent>)
    ensures forall i :: multiset(DistinctInodes(events))[i] == if Occurs(events, i) then 1 else 0
  {
    hide InodeOf;
    if events != [] {
      var front, last := events[..|events| - 1], events[|events| - 1];
      DistinctInodesOnce(front);
      assert events == front + [last];
      forall i ensures Occurs(events, i) <==> Occurs(front, i) || InodeOf(last) == i {
        if InodeOf(last) == i {
          assert last in events;
        }
      }
    }
  }

  // Every inode of an event is proper, so the search for it can trust device comparisons.
  lemma {:induction false} EventInodesAreProper(events: seq<PageCacheEvent>)
    ensures AllProper(DistinctInodes(events))
  {
    hide Proper, FromDeviceAndInode;
    if events != [] {
      EventInodesAreProper(events[..|events| - 1]);
      var last := events[|events| - 1];
      MadeFromDeviceIsProper(last.mm.dev, last.mm.ino);
    }
  }

  predicate Resolves(results: seq<InodeResult>, i: Inode) {
    exists r <- results :: r.Success? && r.inode == i
  }

  lemma {:induction false} NameMapMeaning(results: seq<InodeResult>)
    ensures forall i :: i in NameMap(results) <==> Resolves(results, i)
    ensures forall i <- NameMap(results) :: Success(i, NameMap(results)[i]) in results
  {
    if results != [] {
      var front, last := results[..|results| - 1], results[|results| - 1];
      NameMapMeaning(front);
      assert results == front + [last];
      forall i ensures Resolves(results, i) <==> Resolves(front, i) || (last.Success? && last.inode == i) {
        if last.Success? && last.inode == i {
          assert last in results;
        }
      }
    }
  }

  lemma {:induction false} CountOfInode(results: seq<InodeResult>, j: nat, k: nat)
    requires j < k < |results| && results[j].inode == results[k].inode
    ensures multiset(InodesOf(results))[results[j].inode] >= 2
  {
    var inodes := InodesOf(results);
    assert inodes == inodes[..k] + [inodes[k]] + inodes[k + 1..];
    assert inodes[..k][j] in multiset(inodes[..k]);
  }

  // The k-th result is the only one for an inode.
  predicate OnlyAnswer(results: seq<InodeResult>, k: nat, inode: Inode) {
    k < |results| && results[k].inode == inode && forall j | 0 <= j < |results| && results[j].inode == inode :: j == k
  }

  /**
   With exactly one result for each distinct inode of the events, as the search gives, an event is
   dropped if and only if the result for its inode is a failure, and otherwise carries the name in
   that result.
   */
  lemma DroppedIffUnresolved(events: seq<PageCacheEvent>, results: seq<InodeResult>, e: PageCacheEvent)
    requires multiset(InodesOf(results)) == multiset(DistinctInodes(events)) && e in events
    ensures exists k: nat :: OnlyAnswer(results, k, InodeOf(e))
    ensures forall k: nat | OnlyAnswer(results, k, InodeOf(e)) ::
              Joined(NameMap(results), e) ==
              if results[k].Success? then [ResolvedEvent(results[k].filename, e)] else []
  {
    hide InodeOf, NameMap;
    var k := AnswerOfEvent(events, results, e);
    assert OnlyAnswer(results, k, InodeOf(e));
  }

  lemma AnswerOfEvent(events: seq<PageCacheEvent>, results: seq<InodeResult>, e: PageCacheEvent) returns (k: nat)
    requires multiset(InodesOf(results)) == multiset(DistinctInodes(events)) && e in events
    ensures k < |results| && results[k].inode == InodeOf(e)
    ensures forall j | 0 <= j < |results| && results[j].inode == InodeOf(e) :: j == k
    ensures Joined(NameMap(results), e) ==
            if results[k].Success? then [ResolvedEvent(results[k].filename, e)] else []
  {
    hide InodeOf, NameMap;
    DistinctInodesOnce(events);
    NameMapMeaning(results);
    var inode, inodes := InodeOf(e), InodesOf(results);
    assert multiset(inodes)[inode] == 1;
    assert inode in inodes;
    k :| 0 <= k < |inodes| && inodes[k] == inode;
    forall j | 0 <= j < |results| && results[j].inode == inode ensures j == k {
      if j < k {
        CountOfInode(results, j, k);
      } else if k < j {
        CountOfInode(results, k, j);
      }
    }
    OnlyResult(results, k);
  }

  lemma OnlyResult(results: seq<InodeResult>, k: nat)
    requires k < |results| && forall j | 0 <= j < |results| && results[j].inode == results[k].inode :: j == k
    ensures results[k].inode in NameMap(results) <==> results[k].Success?
    ensures results[k].Success? ==> NameMap(results)[results[k].inode] == results[k].filename
  {
    hide NameMap;
    NameMapMeaning(results);
    if results[k].inode in NameMap(results) {
      var r := Success(results[k].inode, NameMap(results)[results[k].inode]);
      var j :| 0 <= j < |results| && results[j] == r;
    } else {
      assert results[k] in results;
    }
  }

  /**
   The whole join, over a search for the events' inodes in a haystack of names: an event comes out
   exactly when some item of the haystack fits its inode, and then carries that search's name for it.
   */
  lemma KeptIffItsFileIsFound(
    events: seq<PageCacheEvent>, order: seq<Inode>, fs: FileSystem, haystack: seq<InodeResult>, e: PageCacheEvent)
    requires multiset(order) == multiset(DistinctInodes(events)) && e in events && haystack != []
    ensures var results := Results(Run(order, fs, true, haystack));
            (Joined(NameMap(results), e) != [] <==> FitCount(fs, true, haystack, InodeOf(e)) > 0) &&
            forall r <- Joined(NameMap(results), e) ::
              r.event == e && Success(InodeOf(e), r.filename) in Run(order, fs, true, haystack).answers
  {
    hide InodeOf, NameMap, Run, Proper, FitCount, Fits;
    var m, inode := Run(order, fs, true, haystack), InodeOf(e);
    var results := Results(m);
    ExactlyOneResultEach(order, fs, true, haystack);
    var k := AnswerOfEvent(events, results, e);
    DistinctInodesOnce(events);
    assert Occurs(events, inode);
    EventInodesAreProper(events);
    forall i <- order ensures Proper(i) {
      assert i in multiset(order);
      assert i in multiset(DistinctInodes(events));
    }
    FoundIffSomeItemFits(order, fs, true, haystack, inode);
    AnswersSucceed(order, fs, haystack);
    assert k < |m.answers| ==> InodesOf(m.answers)[k] == results[k].inode;
    if inode in InodesOf(m.answers) {
      var j :| 0 <= j < |m.answers| && InodesOf(m.answers)[j] == inode;
      assert results[j] == m.answers[j] && j == k;
    }
  }

  // With the devices missing, only named items are matched, so every answer is a success.
  lemma AnswersSucceed(order: seq<Inode>, fs: FileSystem, haystack: seq<InodeResult>)
    ensures forall r <- Run(order, fs, true, haystack).answers :: r.Success?
  {
    hide Run, DeviceOf;
    AnswersAreBacked(order, fs, true, haystack);
    forall r <- Run(order, fs, true, haystack).answers ensures r.Success? {
      assert Backed(fs, true, haystack, r);
    }
  }
}
