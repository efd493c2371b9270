/**
 Which searched inodes are found, and under which names: said of the names a haystack or a directory tree
 offers and of what stat(2) answers for them, without the machinery of the search.
 */
module FoundNames {
  import opened Bytes
  import opened Inodes
  import opened TreeTraversal
  import opened InodeSearch
  import opened LazySearch

  // stat(2) reports the device and the number of this inode.
  predicate Confirms(stat: StatResult, inode: Inode) {
    stat.Stat? && stat.ino == inode.inode &&
    Wide(Major(stat.dev)) == inode.deviceMajor && Wide(Minor(stat.dev)) == inode.deviceMinor
  }

  // Item j offers a name under the number of this inode, and stat(2) confirms it when the item is reached.
  predicate NamedAt(fs: FileSystem, haystack: seq<InodeResult>, j: nat, inode: Inode)
    requires j < |haystack|
  {
    haystack[j].Success? && haystack[j].inode.inode == inode.inode && Confirms(fs(j, haystack[j].filename), inode)
  }

  lemma ConfirmsTheInode(dev: Word, ino: Word, inode: Inode)
    ensures Confirms(Stat(dev, ino), inode) <==> inode == FromDeviceAndInode(dev, ino)
  {
    hide Major, Minor, Wide;
  }

  lemma ConfirmsTheStat(stat: StatResult, inode: Inode)
    requires Proper(inode)
    ensures Confirms(stat, inode) <==> stat.Stat? && inode.inode == stat.ino && DeviceOf(inode) == stat.dev
  {
    hide DeviceOf, Proper, FromDeviceAndInode, Confirms;
    ErrorsConfirmNothing(stat, inode);
    if stat.Stat? {
      ConfirmsTheInode(stat.dev, stat.ino, inode);
      MatchingByDevice(inode, stat.dev, stat.ino);
    }
  }

  lemma FitsMeansNamed(fs: FileSystem, haystack: seq<InodeResult>, j: nat, inode: Inode)
    requires j < |haystack| && Proper(inode)
    ensures Fits(fs, true, haystack, j, inode) <==> NamedAt(fs, haystack, j, inode)
  {
    hide DeviceOf, Proper, Confirms;
    if haystack[j].Success? {
      ConfirmsTheStat(fs(j, haystack[j].filename), inode);
    }
  }

  lemma ErrorsConfirmNothing(stat: StatResult, inode: Inode)
    ensures Confirms(stat, inode) ==> stat.Stat?
  {
  }

  lemma FitsMeansEqual(fs: FileSystem, haystack: seq<InodeResult>, j: nat, inode: Inode)
    requires j < |haystack|
    ensures Fits(fs, false, haystack, j, inode) <==> haystack[j].inode == inode
  {
  }

  lemma {:induction false} FittingItem(fs: FileSystem, missingDevice: bool, haystack: seq<InodeResult>, inode: Inode)
    returns (j: nat)
    requires FitCount(fs, missingDevice, haystack, inode) > 0
    ensures j < |haystack| && Fits(fs, missingDevice, haystack, j, inode)
  {
    hide Fits;
    var n := |haystack| - 1;
    if Fits(fs, missingDevice, haystack, n, inode) {
      return n;
    }
    j := FittingItem(fs, missingDevice, haystack[..n], inode);
    assert haystack == haystack[..n] + [haystack[n]];
    FitsLonger(fs, missingDevice, haystack[..n], haystack[n], j, inode);
  }

  // The answers, and the failures that follow them.
  lemma ResultOf(list: seq<Inode>, fs: FileSystem, missingDevice: bool, haystack: seq<InodeResult>, inode: Inode)
    requires inode in list && haystack != []
    ensures var m := Run(list, fs, missingDevice, haystack);
            (inode in InodesOf(m.answers) || Failure(inode, COULD_NOT_FIND_FILENAME) in Results(m)) &&
            forall r <- Results(m) :: r in m.answers || r == Failure(r.inode, COULD_NOT_FIND_FILENAME)
  {
    hide Run, InodesOf;
    var m := Run(list, fs, missingDevice, haystack);
    EmittedUnlessTrivial(list, fs, missingDevice, haystack);
    AnsweredPlusRemaining(list, fs, missingDevice, haystack);
    assert inode in multiset(list);
    if inode !in InodesOf(m.answers) {
      assert inode in multiset(m.remaining);
      var k :| 0 <= k < |m.remaining| && m.remaining[k] == inode;
      assert m.emitted;
      assert Results(m)[|m.answers| + k] == Failure(inode, COULD_NOT_FIND_FILENAME);
    }
  }

  // The result for this inode.
  predicate Finds(results: seq<InodeResult>, inode: Inode, filename: Text) {
    Success(inode, filename) in results
  }

  predicate NotFound(results: seq<InodeResult>, inode: Inode) {
    Failure(inode, COULD_NOT_FIND_FILENAME) in results
  }

  ghost predicate NamedBy(fs: FileSystem, haystack: seq<InodeResult>, inode: Inode, filename: Text) {
    exists j | 0 <= j < |haystack| :: NamedAt(fs, haystack, j, inode) && haystack[j].filename == filename
  }

  lemma AnswerIsNamed(list: seq<Inode>, fs: FileSystem, haystack: seq<InodeResult>, inode: Inode, answer: InodeResult)
    requires Proper(inode) && answer in Run(list, fs, true, haystack).answers && answer.inode == inode
    ensures answer.Success? && NamedBy(fs, haystack, inode, answer.filename)
  {
    hide Run, Fits, NamedAt, Proper;
    AnswersAreBacked(list, fs, true, haystack);
    assert Backed(fs, true, haystack, answer);
    var j :| 0 <= j < |haystack| && Fits(fs, true, haystack, j, inode) && answer == AnswerFor(true, haystack[j], inode);
    FitsMeansNamed(fs, haystack, j, inode);
    NamedIsNamed(fs, haystack, j, inode);
  }

  lemma NamedIsNamed(fs: FileSystem, haystack: seq<InodeResult>, j: nat, inode: Inode)
    requires j < |haystack| && NamedAt(fs, haystack, j, inode)
    ensures haystack[j].Success?
  {
  }

  /**
   An inode searched once is found exactly when some item offers a name for its number that stat(2) confirms,
   and then under such a name; otherwise it is reported as not found.
   */
  lemma FoundIffNamed(list: seq<Inode>, fs: FileSystem, haystack: seq<InodeResult>, inode: Inode)
    requires AllProper(list) && multiset(list)[inode] == 1 && haystack != []
    ensures var results := Results(Run(list, fs, true, haystack));
            ((exists filename :: Finds(results, inode, filename)) <==>
             exists filename :: NamedBy(fs, haystack, inode, filename)) &&
            (forall filename :: Finds(results, inode, filename) ==> NamedBy(fs, haystack, inode, filename)) &&
            (NotFound(results, inode) <==> !exists filename :: NamedBy(fs, haystack, inode, filename))
  {
    hide Run, NamedBy, Proper, FitCount, Results, InodesOf;
    var m := Run(list, fs, true, haystack);
    assert inode in multiset(list);
    assert inode in list;
    ResultOf(list, fs, true, haystack, inode);
    FoundIffSomeItemFits(list, fs, true, haystack, inode);
    AnswerIsResult(m, inode);
    forall answer <- m.answers | answer.inode == inode
      ensures answer.Success? && NamedBy(fs, haystack, inode, answer.filename)
    {
      AnswerIsNamed(list, fs, haystack, inode, answer);
    }
    if FitCount(fs, true, haystack, inode) > 0 {
      var filename := FittingName(fs, haystack, inode);
      OnceIsOneResult(list, fs, haystack, inode);
      var answer :| answer in m.answers && answer.inode == inode;
      assert answer == Success(inode, answer.filename);
      assert Finds(Results(m), inode, answer.filename);
    }
    if filename :| NamedBy(fs, haystack, inode, filename) {
      NamedFits(fs, haystack, inode, filename);
    }
  }

  lemma FittingName(fs: FileSystem, haystack: seq<InodeResult>, inode: Inode) returns (filename: Text)
    requires Proper(inode) && FitCount(fs, true, haystack, inode) > 0
    ensures NamedBy(fs, haystack, inode, filename)
  {
    hide Proper, Fits, Confirms;
    var j := FittingItem(fs, true, haystack, inode);
    FitsMeansNamed(fs, haystack, j, inode);
    filename := haystack[j].filename;
  }

  lemma NamedFits(fs: FileSystem, haystack: seq<InodeResult>, inode: Inode, filename: Text)
    requires Proper(inode) && NamedBy(fs, haystack, inode, filename)
    ensures FitCount(fs, true, haystack, inode) > 0
  {
    hide Proper, Fits, Confirms;
    var j :| 0 <= j < |haystack| && NamedAt(fs, haystack, j, inode) && haystack[j].filename == filename;
    FitsMeansNamed(fs, haystack, j, inode);
    SomeItemFits(fs, true, haystack, j, inode);
  }

  lemma AnswerIsResult(m: Scan, inode: Inode)
    ensures forall r <- m.answers :: r in Results(m)
    ensures inode in InodesOf(m.answers) ==> exists r <- m.answers :: r.inode == inode
  {
    forall r <- m.answers ensures r in Results(m) {
      var k :| 0 <= k < |m.answers| && m.answers[k] == r;
      assert Results(m)[k] == r;
    }
    if inode in InodesOf(m.answers) {
      var k :| 0 <= k < |m.answers| && InodesOf(m.answers)[k] == inode;
      assert m.answers[k].inode == inode;
    }
  }

  // An inode searched once and answered is not reported as not found as well.
  lemma OnceIsOneResult(list: seq<Inode>, fs: FileSystem, haystack: seq<InodeResult>, inode: Inode)
    requires multiset(list)[inode] == 1 && inode in InodesOf(Run(list, fs, true, haystack).answers)
    ensures !NotFound(Results(Run(list, fs, true, haystack)), inode)
  {
    hide Run, DeviceOf;
    var m := Run(list, fs, true, haystack);
    AnsweredPlusRemaining(list, fs, true, haystack);
    assert inode in multiset(InodesOf(m.answers));
    assert inode !in multiset(m.remaining);
    AnswersAreBacked(list, fs, true, haystack);
    forall r <- m.answers ensures r.Success? {
      assert Backed(fs, true, haystack, r);
    }
    forall r <- Results(m) | r.Failure? ensures r.inode != inode {
      assert r !in m.answers;
      assert r.inode in m.remaining;
    }
  }

  // Where the devices are in the items themselves, an inode is answered for exactly when an item is for it.
  lemma TrustedIffListed(list: seq<Inode>, fs: FileSystem, haystack: seq<InodeResult>, inode: Inode)
    requires AllProper(list) && multiset(list)[inode] == 1
    ensures var answers := Run(list, fs, false, haystack).answers;
            ((exists answer <- answers :: answer.inode == inode) <==> exists item <- haystack :: item.inode == inode) &&
            forall answer <- answers :: answer in haystack
  {
    hide Run, Fits, Proper, FitCount, InodesOf;
    var m := Run(list, fs, false, haystack);
    FoundIffSomeItemFits(list, fs, false, haystack, inode);
    AnswersAreBacked(list, fs, false, haystack);
    forall answer <- m.answers ensures answer in haystack {
      assert Backed(fs, false, haystack, answer);
    }
    if FitCount(fs, false, haystack, inode) > 0 {
      var j := FittingItem(fs, false, haystack, inode);
      FitsMeansEqual(fs, haystack, j, inode);
      AnswerIsResult(m, inode);
      assert haystack[j] in haystack;
    }
    if item :| item in haystack && item.inode == inode {
      var j :| 0 <= j < |haystack| && haystack[j] == item;
      FitsMeansEqual(fs, haystack, j, inode);
      SomeItemFits(fs, false, haystack, j, inode);
      AnswerIsResult(m, inode);
    }
  }

  /// In a directory tree.

  // The haystack offers a name under an inode number.
  predicate Offers(haystack: seq<InodeResult>, filename: Text, ino: Word) {
    exists r <- haystack :: r.Success? && r.filename == filename && r.inode.inode == ino
  }

  lemma OneMoreOffer(front: seq<InodeResult>, last: InodeResult, filename: Text, ino: Word)
    ensures Offers(front + [last], filename, ino) <==>
            Offers(front, filename, ino) || (last.Success? && last.filename == filename && last.inode.inode == ino)
  {
    assert last in front + [last];
    if Offers(front, filename, ino) {
      var r :| r in front && r.Success? && r.filename == filename && r.inode.inode == ino;
      assert r in front + [last];
    }
  }

  // A traversal offers exactly the entries it has read, each under its name and number.
  lemma {:induction false} EntriesAreOffered(items: seq<DirectoryItem>, filename: Text, ino: Word)
    ensures Offers(Haystack(items), filename, ino) <==> Found(filename, ino) in items
  {
    if items != [] {
      hide Offers;
      var front, last := items[..|items| - 1], items[|items| - 1];
      EntriesAreOffered(front, filename, ino);
      assert items == front + [last];
      if last.Found? {
        OneMoreOffer(Haystack(front), Hay(last)[0], filename, ino);
        assert Haystack(items) == Haystack(front) + [Hay(last)[0]];
      } else {
        assert Haystack(items) == Haystack(front);
      }
    }
  }

  // stat(2) answers the same at all times.
  ghost predicate Steady(fs: FileSystem, stat: Text -> StatResult) {
    forall n, filename :: fs(n, filename) == stat(filename)
  }

  // An entry of the tree has this name and the number of this inode, and stat(2) confirms it.
  predicate NamedInTree(root: Tree<DirectoryItem>, stat: Text -> StatResult, inode: Inode, filename: Text) {
    InTree(Found(filename, inode.inode), root) && Confirms(stat(filename), inode)
  }

  lemma OfferedIsNamed(
    root: Tree<DirectoryItem>, fs: FileSystem, stat: Text -> StatResult, inode: Inode, filename: Text)
    requires Steady(fs, stat)
    ensures NamedBy(fs, Haystack(Items(PreOrder(root))), inode, filename) <==> NamedInTree(root, stat, inode, filename)
  {
    hide Haystack, Confirms, InTree, PreOrder;
    var hay := Haystack(Items(PreOrder(root)));
    EntriesAreOffered(Items(PreOrder(root)), filename, inode.inode);
    ItemsAreInTree(Found(filename, inode.inode), root);
    ItemsOf(PreOrder(root), Found(filename, inode.inode));
    if Offers(hay, filename, inode.inode) && Confirms(stat(filename), inode) {
      var r :| r in hay && r.Success? && r.filename == filename && r.inode.inode == inode.inode;
      var j :| 0 <= j < |hay| && hay[j] == r;
      assert NamedAt(fs, hay, j, inode);
    }
  }

  lemma ItemsOf(nodes: seq<Tree<DirectoryItem>>, item: DirectoryItem)
    ensures item in Items(nodes) <==> HasItem(nodes, item)
  {
    if item in Items(nodes) {
      var k :| 0 <= k < |nodes| && Items(nodes)[k] == item;
      assert nodes[k] in nodes;
    }
    if n :| n in nodes && n.item == item {
      var k :| 0 <= k < |nodes| && nodes[k] == n;
      assert Items(nodes)[k] == item;
    }
  }

  /**
   A search of a directory tree finds an inode exactly when an entry of the tree, with no unreadable directory
   above it, has its number and stat(2) confirms device and number for the name of that entry; the name it
   gives is such a name.
   */
  lemma FoundInTree(
    root: Tree<DirectoryItem>, list: seq<Inode>, fs: FileSystem, stat: Text -> StatResult, inode: Inode)
    requires AllProper(list) && multiset(list)[inode] == 1 && Steady(fs, stat) && root.item.Found?
    ensures var results := Results(Run(list, fs, true, Haystack(Items(PreOrder(root)))));
            ((exists filename :: Finds(results, inode, filename)) <==>
             exists filename :: NamedInTree(root, stat, inode, filename)) &&
            (forall filename :: Finds(results, inode, filename) ==> NamedInTree(root, stat, inode, filename)) &&
            (NotFound(results, inode) <==> !exists filename :: NamedInTree(root, stat, inode, filename))
  {
    hide Run, Results, PreOrder, Haystack, NamedBy, NamedInTree, Finds, NotFound, Steady;
    var haystack := Haystack(Items(PreOrder(root)));
    RootIsOffered(root);
    FoundIffNamed(list, fs, haystack, inode);
    forall filename ensures NamedBy(fs, haystack, inode, filename) <==> NamedInTree(root, stat, inode, filename) {
      OfferedIsNamed(root, fs, stat, inode, filename);
    }
  }

  lemma RootIsOffered(root: Tree<DirectoryItem>)
    requires root.item.Found?
    ensures Haystack(Items(PreOrder(root))) != []
  {
    hide Haystack;
    var items := Items(PreOrder(root));
    assert items[0] == root.item;
    EntriesAreOffered(items, root.item.filename, root.item.ino);
  }
}
