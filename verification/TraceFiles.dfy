/** A compiled trace: the files it mentions, and the ranges of them to read ahead. */
module TraceFiles {
  import opened Bytes

  // The fields are int64 in the stored form, so a malformed file may hold negative ones.
  datatype IndexEntry = IndexEntry(id: int, fileName: Text)

  datatype FileEntry = FileEntry(indexId: int, fileOffset: int, fileLength: int)

  datatype TraceFile = TraceFile(index: seq<IndexEntry>, list: seq<FileEntry>)
}
