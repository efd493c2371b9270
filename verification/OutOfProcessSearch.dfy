/** A search run in another process: its results written, read back and counted. */
module OutOfProcessSearch {
  import opened Wrappers
  import opened Inodes
  import opened InodeSearch
  import opened ResultFraming

  /**
   A search over a haystack that is not empty comes out of the pipe as it went in, and passes the check on
   the number of results, if and only if every file name it found is a word.
   */
  lemma SearchSurvivesThePipe(list: seq<Inode>, fs: FileSystem, missingDevice: bool, haystack: seq<InodeResult>)
    requires haystack != [] || list == []
    requires forall r <- Results(Run(list, fs, missingDevice, haystack)) :: Framable(r)
    ensures var results := Results(Run(list, fs, missingDevice, haystack));
            var reading := ReadAll(Frames(results));
            reading.results == results && EndingOf(reading, Some(|list|)) == Completed <==>
            forall r <- results :: Carried(r)
  {
    hide Run, Results, ReadAll, Frames, Carried, Framable;
    var results := Results(Run(list, fs, missingDevice, haystack));
    FramingRoundTrip(results);
    ExactlyOneResultEach(list, fs, missingDevice, haystack);
    assert |multiset(InodesOf(results))| == |results|;
    assert |multiset(list)| == |list|;
  }

  // Over an empty haystack the search answers nothing, and the count gives it away.
  lemma EmptyHaystackIsRejected(list: seq<Inode>, fs: FileSystem, missingDevice: bool)
    requires list != []
    ensures var results := Results(Run(list, fs, missingDevice, []));
            results == [] && EndingOf(ReadAll(Frames(results)), Some(|list|)) == InvalidCount(|list|, 0)
  {
    assert Frames([]) == [] && NextLine([]) == None;
  }
}
