/** Which events get a file name, and which name, in terms of the device and inode numbers in the events. */
module JoinedEvents {
  import opened Bytes
  import opened Inodes
  import opened InodeSearch
  import opened PageCacheTraces
  import opened EventJoin
  import opened FoundNames

  // The inode an event is about.
  function Named(e: PageCacheEvent): Inode {
    Inode(Wide(Major(e.mm.dev)), Wide(Minor(e.mm.dev)), e.mm.ino)
  }

  /// The names.

  // The k-th result is the first success for its inode.
  predicate IsFirst(results: seq<InodeResult>, k: nat) {
    k < |results| && results[k].Success? && forall j | 0 <= j < k :: !(results[j].Success? && results[j].inode == results[k].inode)
  }

  // An inode has the name of the first success for it, and without a success it has none.
  lemma {:induction false} FirstNameStays(results: seq<InodeResult>, k: nat)
    requires IsFirst(results, k)
    ensures results[k].inode in NameMap(results) && NameMap(results)[results[k].inode] == results[k].filename
  {
    var n := |results| - 1;
    if k < n {
      FirstNameStays(results[..n], k);
    } else {
      NameMapMeaning(results[..n]);
      assert !Resolves(results[..n], results[k].inode);
    }
  }

  /// The order.

  function Known(m: InodeMap, events: seq<PageCacheEvent>): nat {
    if events == [] then 0
    else Known(m, events[..|events| - 1]) + if Named(events[|events| - 1]) in m then 1 else 0
  }

  lemma NamedIsInodeOf(e: PageCacheEvent)
    ensures Named(e) == InodeOf(e)
  {
  }

  // Every event with a name for its inode comes out under it, after those before it and before those after it.
  lemma {:induction false} JoinInOrder(m: InodeMap, events: seq<PageCacheEvent>)
    ensures |Join(m, events)| == Known(m, events)
    ensures forall i | 0 <= i < |events| && Named(events[i]) in m ::
              Known(m, events[..i]) < |Join(m, events)| &&
              Join(m, events)[Known(m, events[..i])] == ResolvedEvent(m[Named(events[i])], events[i])
  {
    hide Named, InodeOf;
    if events != [] {
      var n := |events| - 1;
      JoinInOrder(m, events[..n]);
      NamedIsInodeOf(events[n]);
      forall i | 0 <= i < n ensures events[..n][..i] == events[..i] {}
    }
  }

  /// Names and files.

  // Item j offers a name under the number in the event, and stat(2) reports the event's device and number for it.
  predicate IsFileOf(fs: FileSystem, haystack: seq<InodeResult>, j: nat, e: PageCacheEvent)
    requires j < |haystack|
  {
    haystack[j].Success? && haystack[j].inode.inode == e.mm.ino && fs(j, haystack[j].filename) == Stat(e.mm.dev, e.mm.ino)
  }

  lemma FileMeansNamed(fs: FileSystem, haystack: seq<InodeResult>, j: nat, e: PageCacheEvent)
    requires j < |haystack|
    ensures IsFileOf(fs, haystack, j, e) <==> NamedAt(fs, haystack, j, InodeOf(e))
  {
    hide Major, Minor, Wide, DeviceOf;
    MadeFromDeviceIsProper(e.mm.dev, e.mm.ino);
    if haystack[j].Success? {
      ConfirmsTheStat(fs(j, haystack[j].filename), InodeOf(e));
    }
  }

  /**
   The whole join: an event comes out exactly when, during the search for the events' inodes, some item of the
   haystack was the name of the event's file; and it carries such a name.
   */
  lemma KeptIffItsFileIsNamed(
    events: seq<PageCacheEvent>, order: seq<Inode>, fs: FileSystem, haystack: seq<InodeResult>, e: PageCacheEvent)
    requires multiset(order) == multiset(DistinctInodes(events)) && e in events && haystack != []
    ensures var resolved := Joined(NameMap(Results(InodeSearch.Run(order, fs, true, haystack))), e);
            (resolved != [] <==> exists j | 0 <= j < |haystack| :: IsFileOf(fs, haystack, j, e)) &&
            forall r <- resolved :: r.event == e &&
              exists j | 0 <= j < |haystack| :: IsFileOf(fs, haystack, j, e) && NameAt(haystack, j, r.filename)
  {
    hide InodeSearch.Run, InodeOf, NameMap, Joined, IsFileOf, NamedAt, Proper, FitCount, Results;
    var inode := InodeOf(e);
    KeptIffItsFileIsFound(events, order, fs, haystack, e);
    EventIsProper(e);
    forall j | 0 <= j < |haystack| ensures IsFileOf(fs, haystack, j, e) <==> NamedAt(fs, haystack, j, inode) {
      FileMeansNamed(fs, haystack, j, e);
    }
    if FitCount(fs, true, haystack, inode) > 0 {
      var j := FittingItem(fs, true, haystack, inode);
      FitsMeansNamed(fs, haystack, j, inode);
    }
    if j :| 0 <= j < |haystack| && IsFileOf(fs, haystack, j, e) {
      FitsMeansNamed(fs, haystack, j, inode);
      SomeItemFits(fs, true, haystack, j, inode);
    }
    forall r <- Joined(NameMap(Results(InodeSearch.Run(order, fs, true, haystack))), e)
      ensures exists j | 0 <= j < |haystack| :: IsFileOf(fs, haystack, j, e) && NameAt(haystack, j, r.filename)
    {
      AnswerIsNamed(order, fs, haystack, inode, Success(inode, r.filename));
      NamedIsSome(fs, haystack, inode, r.filename);
    }
  }

  predicate NameAt(haystack: seq<InodeResult>, j: nat, filename: Text) {
    j < |haystack| && haystack[j].Success? && haystack[j].filename == filename
  }

  lemma NamedIsSome(fs: FileSystem, haystack: seq<InodeResult>, inode: Inode, filename: Text)
    requires NamedBy(fs, haystack, inode, filename)
    ensures exists j | 0 <= j < |haystack| :: NamedAt(fs, haystack, j, inode) && NameAt(haystack, j, filename)
  {
    hide Confirms;
  }

  lemma EventIsProper(e: PageCacheEvent)
    ensures Proper(InodeOf(e))
  {
    MadeFromDeviceIsProper(e.mm.dev, e.mm.ino);
  }
}
