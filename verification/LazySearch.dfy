/** Searching a directory tree that is read only as far as the search needs it. */
module LazySearch {
  import opened Bytes
  import opened Inodes
  import opened TreeTraversal
  import opened InodeSearch

  // What readdir(3) yields: a name with its inode number, or an error that is logged and dropped.
  datatype DirectoryItem = Found(filename: Text, ino: Word) | ReadError(path: Text)

  const NO_DEVICE: Word := 0xffff_ffff_ffff_ffff

  function Hay(item: DirectoryItem): seq<InodeResult> {
    match item
    case Found(filename, ino) => [Success(FromDeviceAndInode(NO_DEVICE, ino), filename)]
    case ReadError(_) => []
  }

  // The haystack a traversal feeds to the scan: its items without the errors, their devices missing.
  function Haystack(items: seq<DirectoryItem>): seq<InodeResult> {
    if items == [] then [] else Haystack(items[..|items| - 1]) + Hay(items[|items| - 1])
  }

  // The scan wants more items until it is done.
  ghost predicate Drives(wants: seq<DirectoryItem> -> bool, list: seq<Inode>, fs: FileSystem) {
    forall items :: wants(items) <==> !Run(list, fs, true, Haystack(items)).done
  }

  lemma {:induction false} HaystackPrefix(items: seq<DirectoryItem>, k: nat)
    requires k <= |items|
    ensures Haystack(items[..k]) <= Haystack(items)
  {
    if k < |items| {
      HaystackPrefix(items[..|items| - 1], k);
      assert items[..|items| - 1][..k] == items[..k];
    } else {
      assert items[..k] == items;
    }
  }

  /**
   Reading the tree lazily changes nothing but the amount of reading: the search over the nodes the
   traversal gets to is the search over all of them, with the same answers and the same leftovers.
   */
  lemma LazySearchIsSearch(
    root: Tree<DirectoryItem>, list: seq<Inode>, fs: FileSystem, wants: seq<DirectoryItem> -> bool)
    requires Drives(wants, list, fs)
    ensures var p := OfferAll(Progress([], []), wants, PreOrder(root));
            Run(list, fs, true, Haystack(p.received)) == Run(list, fs, true, Haystack(Items(PreOrder(root))))
  {
    hide Run, PreOrder, OfferAll, Haystack, Expandable;
    var nodes := PreOrder(root);
    var k := LazyPrefix(wants, nodes);
    var all, received := Items(nodes), Items(nodes[..k]);
    assert received == all[..k] && |all| == |nodes|;
    hide Items;
    if k < |nodes| {
      assert !wants(received);
      HaystackPrefix(all, k);
      var front := Haystack(received);
      assert Haystack(all) == front + Haystack(all)[|front|..];
      DoneStays(list, fs, true, front, Haystack(all)[|front|..]);
    } else {
      assert nodes[..k] == nodes;
    }
  }

  /**
   The tree is read no further than needed: a directory is opened only if, with it, the scan was not
   done yet, so at most one item is received after the searched set became empty.
   */
  lemma ReadsOnlyWhileSearching(
    root: Tree<DirectoryItem>, list: seq<Inode>, fs: FileSystem, wants: seq<DirectoryItem> -> bool) returns (k: nat)
    requires Drives(wants, list, fs)
    ensures k <= |PreOrder(root)|
    ensures var p := OfferAll(Progress([], []), wants, PreOrder(root));
            p.received == Items(PreOrder(root)[..k]) &&
            (forall j | 0 <= j < k :: !Run(list, fs, true, Haystack(Items(PreOrder(root)[..j]))).done) &&
            p.asked == Expandable(PreOrder(root)[..if k > 0 && Run(list, fs, true, Haystack(p.received)).done then k - 1 else k])
  {
    hide Run, PreOrder;
    k := LazyPrefix(wants, PreOrder(root));
  }

  /**
   A search from the roots always has an item, the sentinel above them, so every searched inode gets
   exactly one result.
   */
  lemma TreeSearchAnswersAll(
    root: Tree<DirectoryItem>, list: seq<Inode>, fs: FileSystem, wants: seq<DirectoryItem> -> bool)
    requires Drives(wants, list, fs) && root.item.Found?
    ensures var p := OfferAll(Progress([], []), wants, PreOrder(root));
            multiset(InodesOf(Results(Run(list, fs, true, Haystack(p.received))))) == multiset(list)
  {
    hide Run, Results;
    LazySearchIsSearch(root, list, fs, wants);
    var items := Items(PreOrder(root));
    HaystackPrefix(items, 1);
    assert items[..1] == [root.item];
    assert [root.item][..0] == [];
    assert |Haystack([root.item])| == 1;
    ExactlyOneResultEach(list, fs, true, Haystack(items));
  }

  // The search itself: a traversal whose consumer is the scan.
  method SearchDirectories(
    root: Tree<DirectoryItem>, list: seq<Inode>, fs: FileSystem, wants: seq<DirectoryItem> -> bool)
    returns (results: seq<InodeResult>, asked: seq<DirectoryItem>)
    requires Drives(wants, list, fs) && root.item.Found?
    ensures results == Results(Run(list, fs, true, Haystack(Items(PreOrder(root)))))
    ensures multiset(InodesOf(results)) == multiset(list)
    ensures asked == OfferAll(Progress([], []), wants, PreOrder(root)).asked
  {
    hide Run, Results, PreOrder, OfferAll, Haystack;
    var dest := new Subscriber(wants);
    Traverse(dest, root);
    LazySearchIsSearch(root, list, fs, wants);
    TreeSearchAnswersAll(root, list, fs, wants);
    results := Results(Run(list, fs, true, Haystack(dest.received)));
    asked := dest.asked;
  }
}
