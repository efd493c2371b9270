/**
 Writing compiled events as an indexed trace file: file names are numbered in the order they first
 appear, and every add event becomes a page-sized range of its file.
 */
module TraceIndex {
  import opened Bytes
  import opened TraceFiles
  import opened PageCacheMerge

  const PAGE_SIZE: int := 4096

  // Conversion to a signed 64-bit integer.
  function Signed64(value: int): int {
    var low := value % 0x1_0000_0000_0000_0000;
    if low < 0x8000_0000_0000_0000 then low else low - 0x1_0000_0000_0000_0000
  }

  // Page index to file offset in bytes.
  function OffsetOf(index: uint64): int {
    Signed64(Signed64(index) * PAGE_SIZE)
  }

  // The offset is the true one exactly for page indices below 2^51.
  lemma OffsetIsExact(index: uint64)
    ensures OffsetOf(index) == index * PAGE_SIZE <==> index < 0x8_0000_0000_0000
  {
  }

  lemma WrapsBy(value: int) returns (k: int)
    ensures -0x8000_0000_0000_0000 <= Signed64(value) < 0x8000_0000_0000_0000
    ensures Signed64(value) == value + 0x1_0000_0000_0000_0000 * k
  {
    k := (Signed64(value) - value) / 0x1_0000_0000_0000_0000;
  }

  // In any case it is a signed 64-bit number, and off by a multiple of 2^64.
  lemma OffsetWraps(index: uint64) returns (k: int)
    ensures -0x8000_0000_0000_0000 <= OffsetOf(index) < 0x8000_0000_0000_0000
    ensures OffsetOf(index) == index * PAGE_SIZE + 0x1_0000_0000_0000_0000 * k
  {
    hide Signed64;
    var a := WrapsBy(index);
    var b := WrapsBy(Signed64(index) * PAGE_SIZE);
    k := PAGE_SIZE * a + b;
  }

  // The events that reach the file.
  function Adds(events: seq<CompilerEvent>): seq<CompilerEvent> {
    if events == [] then [] else
    var before, last := Adds(events[..|events| - 1]), events[|events| - 1];
    if last.addToPageCache then before + [last] else before
  }

  function AddCount(events: seq<CompilerEvent>): nat {
    if events == [] then 0 else AddCount(events[..|events| - 1]) + if events[|events| - 1].addToPageCache then 1 else 0
  }

  // Each add event is among them, after those that came before it and before those that came after; nothing else is.
  lemma {:induction false} AddsInOrder(events: seq<CompilerEvent>)
    ensures |Adds(events)| == AddCount(events)
    ensures forall k | 0 <= k < |events| && events[k].addToPageCache ::
              AddCount(events[..k]) < |Adds(events)| && Adds(events)[AddCount(events[..k])] == events[k]
  {
    if events != [] {
      var n := |events| - 1;
      AddsInOrder(events[..n]);
      forall k | 0 <= k < n ensures events[..n][..k] == events[..k] {}
    }
  }

  // The file names of some events, each once, in the order of first appearance.
  function Names(events: seq<CompilerEvent>): seq<Text> {
    if events == [] then [] else
    var before := Names(events[..|events| - 1]);
    var last := events[|events| - 1].filename;
    if last in before then before else before + [last]
  }

  // Ids are dense and name each file of the events once; each event points at its file and range.
  ghost predicate Indexes(adds: seq<CompilerEvent>, file: TraceFile) {
    |file.index| == |Names(adds)| &&
    (forall i | 0 <= i < |file.index| :: file.index[i] == IndexEntry(i, Names(adds)[i])) &&
    |file.list| == |adds| &&
    forall k | 0 <= k < |adds| :: Points(file, file.list[k], adds[k])
  }

  predicate Points(file: TraceFile, entry: FileEntry, e: CompilerEvent) {
    0 <= entry.indexId < |file.index| && file.index[entry.indexId].fileName == e.filename &&
    entry.fileOffset == OffsetOf(e.index) && entry.fileLength == PAGE_SIZE
  }

  lemma {:induction false} NamesAreDistinct(events: seq<CompilerEvent>)
    ensures forall i, j | 0 <= i < j < |Names(events)| :: Names(events)[i] != Names(events)[j]
    ensures forall name :: name in Names(events) <==> exists e <- events :: e.filename == name
  {
    if events != [] {
      var front, last := events[..|events| - 1], events[|events| - 1];
      NamesAreDistinct(front);
      assert events == front + [last];
      assert forall name :: name in Names(events) <==> name in Names(front) || name == last.filename;
    }
  }

  // Later events never renumber earlier files.
  lemma {:induction false} NamesOnlyGrow(front: seq<CompilerEvent>, back: seq<CompilerEvent>)
    ensures Names(front) <= Names(front + back)
  {
    if back == [] {
      assert front + back == front;
    } else {
      var all := front + back;
      assert all[..|all| - 1] == front + back[..|back| - 1];
      NamesOnlyGrow(front, back[..|back| - 1]);
    }
  }

  // The file determines, and is determined by, the events written to it.
  lemma IndexIsUnique(adds: seq<CompilerEvent>, a: TraceFile, b: TraceFile)
    requires Indexes(adds, a) && Indexes(adds, b)
    ensures a == b
  {
    NamesAreDistinct(adds);
    assert a.index == b.index;
    forall k | 0 <= k < |adds| ensures a.list[k] == b.list[k] {
      assert Points(a, a.list[k], adds[k]) && Points(b, b.list[k], adds[k]);
      assert Names(adds)[a.list[k].indexId] == Names(adds)[b.list[k].indexId];
    }
  }

  // A file of more events begins with the file of fewer: no id and no range is ever given again.
  lemma FilesOnlyGrow(front: seq<CompilerEvent>, back: seq<CompilerEvent>, a: TraceFile, b: TraceFile)
    requires Indexes(front, a) && Indexes(front + back, b)
    ensures a.index <= b.index && a.list <= b.list
  {
    hide OffsetOf;
    NamesOnlyGrow(front, back);
    NamesAreDistinct(front + back);
    forall k | 0 <= k < |front| ensures a.list[k] == b.list[k] {
      assert (front + back)[k] == front[k];
      assert Points(a, a.list[k], front[k]) && Points(b, b.list[k], (front + back)[k]);
      assert Names(front + back)[a.list[k].indexId] == Names(front + back)[b.list[k].indexId];
    }
  }

  // What a reader of the file gets back: file name, offset and length of each range.
  datatype Range = Range(fileName: Text, offset: int, length: int)

  function Decode(file: TraceFile): seq<Range>
    requires forall entry <- file.list :: 0 <= entry.indexId < |file.index|
  {
    seq(|file.list|, k requires 0 <= k < |file.list| =>
      Range(file.index[file.list[k].indexId].fileName, file.list[k].fileOffset, file.list[k].fileLength))
  }

  /**
   The round trip: decoding the file gives back exactly the add events, in order, each as the page of
   its file at its true offset, when their page indices are below 2^51.
   */
  lemma DecodingGivesTheAdds(adds: seq<CompilerEvent>, file: TraceFile)
    requires Indexes(adds, file) && forall e <- adds :: e.index < 0x8_0000_0000_0000
    ensures forall entry <- file.list :: 0 <= entry.indexId < |file.index|
    ensures |Decode(file)| == |adds|
    ensures forall k | 0 <= k < |adds| :: Decode(file)[k] == Range(adds[k].filename, adds[k].index * PAGE_SIZE, PAGE_SIZE)
  {
    hide OffsetOf;
    forall entry <- file.list ensures 0 <= entry.indexId < |file.index| {
      var k :| 0 <= k < |file.list| && file.list[k] == entry;
      assert Points(file, entry, adds[k]);
    }
    forall k | 0 <= k < |adds| ensures Decode(file)[k] == Range(adds[k].filename, adds[k].index * PAGE_SIZE, PAGE_SIZE) {
      assert adds[k] in adds && Points(file, file.list[k], adds[k]);
      OffsetIsExact(adds[k].index);
    }
  }

  method BuildTraceFile(events: seq<CompilerEvent>) returns (file: TraceFile)
    ensures Indexes(Adds(events), file)
  {
    hide OffsetOf, Indexes;
    var filePathMap: map<Text, int> := map[];
    var fileHandleId := 0;
    var index, list := [], [];
    NothingIndexed();
    for i := 0 to |events|
      invariant fileHandleId == |index|
      invariant Indexes(Adds(events[..i]), TraceFile(index, list))
      invariant Finds(filePathMap, index)
    {
      var event := events[i];
      assert events[..i + 1][..i] == events[..i];
      if !event.addToPageCache {
        continue;
      }
      var fileHandle: int;
      ghost var before, adds := TraceFile(index, list), Adds(events[..i]);
      FindsNames(adds, before, filePathMap, event.filename);
      if event.filename !in filePathMap {
        fileHandle := fileHandleId;
        fileHandleId := fileHandleId + 1;
        filePathMap := filePathMap[event.filename := fileHandle];
        index := index + [IndexEntry(fileHandle, event.filename)];
      } else {
        fileHandle := filePathMap[event.filename];
      }
      list := list + [FileEntry(fileHandle, OffsetOf(event.index), PAGE_SIZE)];
      SameSize(adds, before);
      OneMoreAdd(adds, before, event, TraceFile(index, list));
    }
    assert events[..|events|] == events;
    file := TraceFile(index, list);
  }

  // The map finds the index entry of each file name that has one, and no others.
  ghost predicate Finds(filePathMap: map<Text, int>, index: seq<IndexEntry>) {
    (forall name <- filePathMap :: 0 <= filePathMap[name] < |index| && index[filePathMap[name]].fileName == name) &&
    forall k | 0 <= k < |index| :: index[k].fileName in filePathMap
  }

  lemma {:induction false} FindsNames(
    adds: seq<CompilerEvent>, file: TraceFile, filePathMap: map<Text, int>, name: Text)
    requires Indexes(adds, file) && Finds(filePathMap, file.index)
    ensures name in filePathMap <==> name in Names(adds)
  {
    forall k | 0 <= k < |file.index| ensures file.index[k].fileName == Names(adds)[k] {}
  }

  lemma SameSize(adds: seq<CompilerEvent>, file: TraceFile)
    requires Indexes(adds, file)
    ensures |file.list| == |adds|
  {
  }

  lemma NothingIndexed()
    ensures Indexes([], TraceFile([], []))
  {
  }

  lemma {:induction false} OneMoreAdd(adds: seq<CompilerEvent>, before: TraceFile, e: CompilerEvent, after: TraceFile)
    requires Indexes(adds, before)
    requires after.index == if e.filename in Names(adds) then before.index
                            else before.index + [IndexEntry(|before.index|, e.filename)]
    requires |after.list| == |adds| + 1 && after.list[..|adds|] == before.list && Points(after, after.list[|adds|], e)
    ensures Indexes(adds + [e], after)
  {
    assert (adds + [e])[..|adds|] == adds;
    forall k | 0 <= k < |adds| ensures Points(after, after.list[k], adds[k]) {
      assert Points(before, before.list[k], adds[k]) && after.list[k] == before.list[k];
    }
  }
}
