/**
 Finding file names for inodes: a haystack of file names is scanned against a shrinking set of
 searched inodes, indexed by inode number so that stat(2) is called only on a possible hit.
 */
module InodeSearch {
  import opened Wrappers
  import opened Bytes
  import opened Inodes

  const ENOENT: int := 2
  const COULD_NOT_FIND_FILENAME: int := 126  // ENOKEY
  const VERIFICATION_FAILED: int := 127      // EKEYEXPIRED

  datatype StatResult = Stat(dev: Word, ino: Word) | StatError(errno: int)

  // What stat(2) says about a file name; the file system may change from one item to the next.
  type FileSystem = (nat, Text) -> StatResult

  /// The set of searched inodes, as a list in the iteration order of the multimap.

  // What a bucket is searched for: a stat result, or a whole inode.
  datatype Target = ByStat(dev: Word, ino: Word) | ByInode(inode: Inode)

  predicate Hits(candidate: Inode, target: Target) {
    match target
    case ByStat(dev, ino) => candidate.inode == ino && DeviceOf(candidate) == dev
    case ByInode(inode) => candidate == inode
  }

  // The first inode of the bucket `ino` that hits the target.
  function FindIndex(s: seq<Inode>, ino: Word, target: Target): (k: nat)
    ensures k <= |s| && (k < |s| ==> s[k].inode == ino && Hits(s[k], target))
    ensures forall i | 0 <= i < k :: !(s[i].inode == ino && Hits(s[i], target))
  {
    if s == [] || (s[0].inode == ino && Hits(s[0], target)) then 0 else 1 + FindIndex(s[1..], ino, target)
  }

  function Without(s: seq<Inode>, k: nat): seq<Inode>
    requires k < |s|
  {
    s[..k] + s[k + 1..]
  }

  lemma WithoutIsMultisetMinus(s: seq<Inode>, k: nat)
    requires k < |s|
    ensures multiset(Without(s, k)) + multiset{s[k]} == multiset(s)
  {
    assert s == s[..k] + [s[k]] + s[k + 1..];
  }

  class InodeSet {
    var inodes: seq<Inode>

    constructor OfList(list: seq<Inode>)
      ensures multiset(inodes) == multiset(list)
    {
      inodes := [];
      new;
      for i := 0 to |list|
        invariant multiset(inodes) == multiset(list[..i])
      {
        inodes := inodes + [list[i]];
        assert list[..i + 1] == list[..i] + [list[i]];
      }
      assert list[..|list|] == list;
    }

    predicate HasBucket(ino: Word)
      reads this
    {
      exists i <- inodes :: i.inode == ino
    }

    // Finds an inode in a bucket and removes it from the set.
    method FindAndRemove(ino: Word, target: Target) returns (found: Option<Inode>)
      modifies this
      ensures var k := FindIndex(old(inodes), ino, target);
              if k < |old(inodes)| then found == Some(old(inodes)[k]) && inodes == Without(old(inodes), k)
              else found == None && inodes == old(inodes)
    {
      hide Hits;
      var k := 0;
      while k < |inodes| && !(inodes[k].inode == ino && Hits(inodes[k], target))
        invariant k <= |inodes| && inodes == old(inodes)
        invariant forall i | 0 <= i < k :: !(inodes[i].inode == ino && Hits(inodes[i], target))
      {
        k := k + 1;
      }
      FirstIndex(inodes, ino, target, k);
      if k == |inodes| {
        return None;
      }
      found := Some(inodes[k]);
      inodes := inodes[..k] + inodes[k + 1..];
    }
  }

  lemma FirstIndex(s: seq<Inode>, ino: Word, target: Target, k: nat)
    requires k <= |s| && (k < |s| ==> s[k].inode == ino && Hits(s[k], target))
    requires forall i | 0 <= i < k :: !(s[i].inode == ino && Hits(s[i], target))
    ensures k == FindIndex(s, ino, target)
  {
  }

  /// The scan.

  // The state after some items. `emitted` is whether any state has reached the subscribers.
  datatype Scan = Scan(
    remaining: seq<Inode>, answers: seq<InodeResult>, consumed: nat, emitted: bool, done: bool, statted: seq<Text>)

  function StartScan(list: seq<Inode>): Scan {
    Scan(list, [], 0, false, false, [])
  }

  predicate InBucket(s: seq<Inode>, ino: Word) {
    exists i <- s :: i.inode == ino
  }

  // The target an item stands for, once stat(2) has been asked if the device is missing.
  function TargetOf(m: Scan, fs: FileSystem, missingDevice: bool, item: InodeResult): Option<Target> {
    if !missingDevice then Some(ByInode(item.inode))
    else if item.Failure? then None
    else match fs(m.consumed, item.filename)
      case Stat(dev, ino) => Some(ByStat(dev, ino))
      case StatError(_) => None
  }

  // The answer for a hit: the found inode under the item's name, or the item itself.
  function AnswerFor(missingDevice: bool, item: InodeResult, found: Inode): InodeResult {
    if missingDevice && item.Success? then Success(found, item.filename) else item
  }

  // One item of the haystack, and the decision to go on that follows it.
  function Advance(m: Scan, fs: FileSystem, missingDevice: bool, item: InodeResult): Scan {
    if m.done then m else
    var probe := InBucket(m.remaining, item.inode.inode);
    var target := if probe then TargetOf(m, fs, missingDevice, item) else None;
    var statted := if probe && missingDevice && item.Success? then m.statted + [item.filename] else m.statted;
    Conclude(m, missingDevice, item, target, statted)
  }

  function Conclude(m: Scan, missingDevice: bool, item: InodeResult, target: Option<Target>, statted: seq<Text>): Scan {
    var k := if target.Some? then FindIndex(m.remaining, item.inode.inode, target.value) else |m.remaining|;
    if k < |m.remaining| then
      Scan(Without(m.remaining, k), m.answers + [AnswerFor(missingDevice, item, m.remaining[k])],
           m.consumed + 1, true, false, statted)
    else if m.remaining == [] then
      m.(consumed := m.consumed + 1, done := true, statted := statted)
    else
      m.(consumed := m.consumed + 1, emitted := true, statted := statted)
  }

  function Run(list: seq<Inode>, fs: FileSystem, missingDevice: bool, haystack: seq<InodeResult>): Scan {
    if haystack == [] then StartScan(list)
    else Advance(Run(list, fs, missingDevice, haystack[..|haystack| - 1]), fs, missingDevice, haystack[|haystack| - 1])
  }

  function FailAll(inodes: seq<Inode>): seq<InodeResult> {
    seq(|inodes|, i requires 0 <= i < |inodes| => Failure(inodes[i], COULD_NOT_FIND_FILENAME))
  }

  // The matches as they came, then a failure for each inode left in the last state emitted.
  function Results(m: Scan): seq<InodeResult> {
    m.answers + if m.emitted then FailAll(m.remaining) else []
  }

  function InodesOf(results: seq<InodeResult>): seq<Inode> {
    seq(|results|, i requires 0 <= i < |results| => results[i].inode)
  }

  /// Exactly one answer each.

  lemma InodesOfAppend(a: seq<InodeResult>, b: seq<InodeResult>)
    ensures InodesOf(a + b) == InodesOf(a) + InodesOf(b)
  {
  }

  // Items that carry a device number answer for the inode they match.
  lemma AnswersForFound(m: Scan, fs: FileSystem, missingDevice: bool, item: InodeResult)
    requires TargetOf(m, fs, missingDevice, item).Some?
    ensures var target := TargetOf(m, fs, missingDevice, item).value;
            forall found | Hits(found, target) :: AnswerFor(missingDevice, item, found).inode == found
  {
  }

  // A step answers for at most one inode and takes that one off the set; nothing else moves.
  lemma AdvanceConserves(m: Scan, fs: FileSystem, missingDevice: bool, item: InodeResult)
    ensures var m' := Advance(m, fs, missingDevice, item);
            multiset(InodesOf(m'.answers)) + multiset(m'.remaining) == multiset(InodesOf(m.answers)) + multiset(m.remaining)
  {
    hide FindIndex, DeviceOf;
    var m' := Advance(m, fs, missingDevice, item);
    if m' != m && |m'.answers| > |m.answers| {
      var target := TargetOf(m, fs, missingDevice, item);
      var k := FindIndex(m.remaining, item.inode.inode, target.value);
      var found := m.remaining[k];
      AnswersForFound(m, fs, missingDevice, item);
      var answer := AnswerFor(missingDevice, item, found);
      InodesOfAppend(m.answers, [answer]);
      assert InodesOf([answer]) == [found];
      WithoutIsMultisetMinus(m.remaining, k);
    }
  }

  /**
   After every item, the inodes answered for together with those still searched are the searched
   inodes, each as often as it was asked for.
   */
  lemma {:induction false} AnsweredPlusRemaining(
    list: seq<Inode>, fs: FileSystem, missingDevice: bool, haystack: seq<InodeResult>)
    ensures var m := Run(list, fs, missingDevice, haystack);
            multiset(InodesOf(m.answers)) + multiset(m.remaining) == multiset(list)
  {
    if haystack != [] {
      hide Advance;
      var front := haystack[..|haystack| - 1];
      AnsweredPlusRemaining(list, fs, missingDevice, front);
      AdvanceConserves(Run(list, fs, missingDevice, front), fs, missingDevice, haystack[|haystack| - 1]);
    } else {
      assert InodesOf([]) == [];
    }
  }

  // No state is emitted only if there was no item, or nothing was searched for.
  lemma {:induction false} EmittedUnlessTrivial(
    list: seq<Inode>, fs: FileSystem, missingDevice: bool, haystack: seq<InodeResult>)
    ensures var m := Run(list, fs, missingDevice, haystack);
            (!m.emitted ==> m.answers == [] && m.remaining == list && (list == [] || haystack == [])) &&
            (haystack == [] ==> !m.emitted)
  {
    if haystack != [] {
      EmittedUnlessTrivial(list, fs, missingDevice, haystack[..|haystack| - 1]);
    }
  }

  /**
   Every searched inode gets exactly one result, duplicates included, if and only if the haystack is
   not empty or nothing is searched for: without an item, the failures are never emitted.
   */
  lemma ExactlyOneResultEach(list: seq<Inode>, fs: FileSystem, missingDevice: bool, haystack: seq<InodeResult>)
    ensures multiset(InodesOf(Results(Run(list, fs, missingDevice, haystack)))) == multiset(list) <==>
            haystack != [] || list == []
  {
    hide Run;
    var m := Run(list, fs, missingDevice, haystack);
    AnsweredPlusRemaining(list, fs, missingDevice, haystack);
    EmittedUnlessTrivial(list, fs, missingDevice, haystack);
    var failures := if m.emitted then FailAll(m.remaining) else [];
    InodesOfAppend(m.answers, failures);
    if m.emitted {
      assert InodesOf(failures) == m.remaining;
    } else {
      assert InodesOf(failures) == [];
      assert InodesOf(m.answers) == [];
      assert |multiset(list)| == |list|;
    }
  }

  /// When the scan stops.

  lemma {:induction false} DoneStays(
    list: seq<Inode>, fs: FileSystem, missingDevice: bool, front: seq<InodeResult>, back: seq<InodeResult>)
    requires Run(list, fs, missingDevice, front).done
    ensures Run(list, fs, missingDevice, front + back) == Run(list, fs, missingDevice, front)
  {
    if back == [] {
      assert front + back == front;
    } else {
      var all := front + back;
      assert all[..|all| - 1] == front + back[..|back| - 1];
      DoneStays(list, fs, missingDevice, front, back[..|back| - 1]);
    }
  }

  // Until it is done the scan has consumed every item; it is done only with an empty set.
  lemma {:induction false} ConsumedWhileRunning(
    list: seq<Inode>, fs: FileSystem, missingDevice: bool, haystack: seq<InodeResult>)
    ensures var m := Run(list, fs, missingDevice, haystack);
            (!m.done ==> m.consumed == |haystack|) && (m.done ==> m.remaining == [] && haystack != [])
  {
    if haystack != [] {
      ConsumedWhileRunning(list, fs, missingDevice, haystack[..|haystack| - 1]);
    }
  }

  /**
   If the set becomes empty with item n, one more item is consumed, without being asked about at
   stat(2), and none after it; before that every item is consumed.
   */
  lemma StopsOneItemLater(list: seq<Inode>, fs: FileSystem, missingDevice: bool, haystack: seq<InodeResult>, n: nat)
    requires n < |haystack| && Run(list, fs, missingDevice, haystack[..n]).remaining == []
    requires forall t | 0 <= t < n :: Run(list, fs, missingDevice, haystack[..t]).remaining != []
    ensures forall t | 0 <= t <= n :: Run(list, fs, missingDevice, haystack[..t]).consumed == t
    ensures forall t | n < t <= |haystack| ::
              var m := Run(list, fs, missingDevice, haystack[..t]);
              m.done && m.consumed == n + 1 && m.statted == Run(list, fs, missingDevice, haystack[..n]).statted
  {
    hide Run;
    forall t | 0 <= t <= n
      ensures Run(list, fs, missingDevice, haystack[..t]).consumed == t && !Run(list, fs, missingDevice, haystack[..t]).done
    {
      NotDoneBefore(list, fs, missingDevice, haystack, n, t);
    }
    EmptySetEnds(list, fs, missingDevice, haystack, n);
    forall t | n < t <= |haystack|
      ensures Run(list, fs, missingDevice, haystack[..t]) == Run(list, fs, missingDevice, haystack[..n + 1])
    {
      assert haystack[..t] == haystack[..n + 1] + haystack[n + 1..t];
      DoneStays(list, fs, missingDevice, haystack[..n + 1], haystack[n + 1..t]);
    }
  }

  lemma EmptySetEnds(list: seq<Inode>, fs: FileSystem, missingDevice: bool, haystack: seq<InodeResult>, n: nat)
    requires n < |haystack| && Run(list, fs, missingDevice, haystack[..n]).remaining == []
    requires !Run(list, fs, missingDevice, haystack[..n]).done
    ensures var m := Run(list, fs, missingDevice, haystack[..n]);
            Run(list, fs, missingDevice, haystack[..n + 1]) == m.(consumed := m.consumed + 1, done := true)
  {
    assert haystack[..n + 1][..n] == haystack[..n];
  }

  lemma NotDoneBefore(list: seq<Inode>, fs: FileSystem, missingDevice: bool, haystack: seq<InodeResult>, n: nat, t: nat)
    requires t <= n < |haystack|
    requires forall j | 0 <= j < n :: Run(list, fs, missingDevice, haystack[..j]).remaining != []
    ensures Run(list, fs, missingDevice, haystack[..t]).consumed == t && !Run(list, fs, missingDevice, haystack[..t]).done
  {
    ConsumedWhileRunning(list, fs, missingDevice, haystack[..t]);
    if t > 0 {
      ConsumedWhileRunning(list, fs, missingDevice, haystack[..t - 1]);
      assert haystack[..t][..t - 1] == haystack[..t - 1];
    }
  }

  /// What the answers say.

  // The target of item `j`, looked at as the scan would look at it.
  function TargetAt(fs: FileSystem, missingDevice: bool, haystack: seq<InodeResult>, j: nat): Option<Target>
    requires j < |haystack|
  {
    TargetOf(StartScan([]).(consumed := j), fs, missingDevice, haystack[j])
  }

  // Item `j` fits the inode: same number, and the device or the whole inode agrees.
  predicate Fits(fs: FileSystem, missingDevice: bool, haystack: seq<InodeResult>, j: nat, inode: Inode)
    requires j < |haystack|
  {
    haystack[j].inode.inode == inode.inode && TargetAt(fs, missingDevice, haystack, j).Some? &&
    Hits(inode, TargetAt(fs, missingDevice, haystack, j).value)
  }

  ghost predicate Backed(fs: FileSystem, missingDevice: bool, haystack: seq<InodeResult>, answer: InodeResult) {
    exists j | 0 <= j < |haystack| ::
      Fits(fs, missingDevice, haystack, j, answer.inode) && answer == AnswerFor(missingDevice, haystack[j], answer.inode)
  }

  lemma BackedLonger(fs: FileSystem, missingDevice: bool, front: seq<InodeResult>, last: InodeResult, answer: InodeResult)
    requires Backed(fs, missingDevice, front, answer)
    ensures Backed(fs, missingDevice, front + [last], answer)
  {
    hide Fits;
    var j :| 0 <= j < |front| && Fits(fs, missingDevice, front, j, answer.inode) &&
             answer == AnswerFor(missingDevice, front[j], answer.inode);
    FitsLonger(fs, missingDevice, front, last, j, answer.inode);
    assert (front + [last])[j] == front[j];
  }

  lemma FitsLonger(
    fs: FileSystem, missingDevice: bool, front: seq<InodeResult>, last: InodeResult, j: nat, inode: Inode)
    requires j < |front|
    ensures Fits(fs, missingDevice, front + [last], j, inode) == Fits(fs, missingDevice, front, j, inode)
  {
  }

  // Whether some searched inode fits an item with the given target.
  predicate AnyHit(s: seq<Inode>, ino: Word, target: Option<Target>) {
    exists i <- s :: i.inode == ino && target.Some? && Hits(i, target.value)
  }

  lemma FindsAnyHit(s: seq<Inode>, ino: Word, target: Target)
    ensures FindIndex(s, ino, target) < |s| <==> AnyHit(s, ino, Some(target))
  {
    hide Hits;
    var k := FindIndex(s, ino, target);
    if k < |s| {
      assert s[k] in s;
    }
  }

  // What an item does to a running scan.
  lemma AdvanceCases(m: Scan, fs: FileSystem, missingDevice: bool, item: InodeResult)
    requires !m.done
    ensures var m', target := Advance(m, fs, missingDevice, item), TargetOf(m, fs, missingDevice, item);
            if AnyHit(m.remaining, item.inode.inode, target) then
              var k := FindIndex(m.remaining, item.inode.inode, target.value);
              k < |m.remaining| && m'.remaining == Without(m.remaining, k) &&
              m'.answers == m.answers + [AnswerFor(missingDevice, item, m.remaining[k])]
            else m'.remaining == m.remaining && m'.answers == m.answers
  {
    hide Hits, FindIndex, TargetOf, AnswerFor, Without;
    var target := TargetOf(m, fs, missingDevice, item);
    if target.Some? {
      FindsAnyHit(m.remaining, item.inode.inode, target.value);
    }
  }

  // The same for the last item of a haystack.
  lemma LastStep(list: seq<Inode>, fs: FileSystem, missingDevice: bool, haystack: seq<InodeResult>) returns (k: nat)
    requires haystack != [] && !Run(list, fs, missingDevice, haystack[..|haystack| - 1]).done
    ensures var n := |haystack| - 1;
            var m, m', item := Run(list, fs, missingDevice, haystack[..n]), Run(list, fs, missingDevice, haystack), haystack[n];
            if exists i <- m.remaining :: Fits(fs, missingDevice, haystack, n, i) then
              k < |m.remaining| && Fits(fs, missingDevice, haystack, n, m.remaining[k]) &&
              m'.remaining == Without(m.remaining, k) &&
              m'.answers == m.answers + [AnswerFor(missingDevice, item, m.remaining[k])]
            else m'.remaining == m.remaining && m'.answers == m.answers
  {
    hide Hits, FindIndex, Advance, AnswerFor, Without;
    var n := |haystack| - 1;
    var m := Run(list, fs, missingDevice, haystack[..n]);
    ConsumedWhileRunning(list, fs, missingDevice, haystack[..n]);
    assert TargetOf(m, fs, missingDevice, haystack[n]) == TargetAt(fs, missingDevice, haystack, n);
    AdvanceCases(m, fs, missingDevice, haystack[n]);
    var target := TargetAt(fs, missingDevice, haystack, n);
    k := if target.Some? then FindIndex(m.remaining, haystack[n].inode.inode, target.value) else 0;
  }

  /**
   Every answer is the answer of some item that fits its inode: no name is made up, and no inode
   gets the name of a file with another device or number.
   */
  lemma {:induction false} AnswersAreBacked(
    list: seq<Inode>, fs: FileSystem, missingDevice: bool, haystack: seq<InodeResult>)
    ensures forall answer <- Run(list, fs, missingDevice, haystack).answers :: Backed(fs, missingDevice, haystack, answer)
  {
    if haystack != [] {
      hide Backed, Fits, FindIndex, Without;
      var n := |haystack| - 1;
      var front, last := haystack[..n], haystack[n];
      AnswersAreBacked(list, fs, missingDevice, front);
      var m := Run(list, fs, missingDevice, front);
      assert haystack == front + [last];
      forall answer <- m.answers ensures Backed(fs, missingDevice, haystack, answer) {
        BackedLonger(fs, missingDevice, front, last, answer);
      }
      if !m.done {
        var k := LastStep(list, fs, missingDevice, haystack);
        if exists i <- m.remaining :: Fits(fs, missingDevice, haystack, n, i) {
          NewAnswerBacked(fs, missingDevice, haystack, m.remaining[k]);
        }
      }
    }
  }

  lemma NewAnswerBacked(fs: FileSystem, missingDevice: bool, haystack: seq<InodeResult>, found: Inode)
    requires haystack != [] && Fits(fs, missingDevice, haystack, |haystack| - 1, found)
    ensures Backed(fs, missingDevice, haystack, AnswerFor(missingDevice, haystack[|haystack| - 1], found))
    ensures AnswerFor(missingDevice, haystack[|haystack| - 1], found).inode == found
  {
    hide DeviceOf;
  }

  // How many items fit an inode.
  function FitCount(fs: FileSystem, missingDevice: bool, haystack: seq<InodeResult>, inode: Inode): nat {
    if haystack == [] then 0 else
    FitCount(fs, missingDevice, haystack[..|haystack| - 1], inode) +
    if Fits(fs, missingDevice, haystack, |haystack| - 1, inode) then 1 else 0
  }

  lemma SameTargetSameInode(a: Inode, b: Inode, target: Target)
    requires Proper(a) && Proper(b) && Hits(a, target) && Hits(b, target)
    ensures a == b
  {
    hide DeviceOf, Proper, FromDeviceAndInode;
    if target.ByStat? {
      MatchingByDevice(a, target.dev, target.ino);
      MatchingByDevice(b, target.dev, target.ino);
    }
  }

  predicate AllProper(inodes: seq<Inode>) {
    forall i <- inodes :: Proper(i)
  }

  /**
   An inode is left over only for lack of items: it has been answered for as often as items of the
   haystack fit it.
   */
  lemma {:induction false} LeftoversLackItems(
    list: seq<Inode>, fs: FileSystem, missingDevice: bool, haystack: seq<InodeResult>, inode: Inode)
    requires AllProper(list) && inode in Run(list, fs, missingDevice, haystack).remaining
    ensures multiset(InodesOf(Run(list, fs, missingDevice, haystack).answers))[inode] ==
            FitCount(fs, missingDevice, haystack, inode)
  {
    if haystack != [] {
      hide Run, Fits, Proper;
      LeftoverStep(list, fs, missingDevice, haystack, inode);
      LeftoversLackItems(list, fs, missingDevice, haystack[..|haystack| - 1], inode);
    } else {
      assert InodesOf([]) == [];
    }
  }

  // A leftover is answered for by the last item exactly when that item fits it.
  lemma LeftoverStep(list: seq<Inode>, fs: FileSystem, missingDevice: bool, haystack: seq<InodeResult>, inode: Inode)
    requires haystack != [] && AllProper(list) && inode in Run(list, fs, missingDevice, haystack).remaining
    ensures var m, m' := Run(list, fs, missingDevice, haystack[..|haystack| - 1]), Run(list, fs, missingDevice, haystack);
            inode in m.remaining &&
            multiset(InodesOf(m'.answers))[inode] ==
            multiset(InodesOf(m.answers))[inode] + if Fits(fs, missingDevice, haystack, |haystack| - 1, inode) then 1 else 0
  {
    hide Run, Fits, AnswerFor, Proper, InodesOf, Without;
    var n := |haystack| - 1;
    var front, last := haystack[..n], haystack[n];
    var m := Run(list, fs, missingDevice, front);
    RunningWithLeftovers(list, fs, missingDevice, haystack, inode);
    var k := LastStep(list, fs, missingDevice, haystack);
    if exists i <- m.remaining :: Fits(fs, missingDevice, haystack, n, i) {
      var found := m.remaining[k];
      var answer := AnswerFor(missingDevice, last, found);
      ElementsOfWithout(m.remaining, k);
      assert found in m.remaining && inode in m.remaining;
      RemainingIsProper(list, fs, missingDevice, front);
      FitsSameInode(fs, missingDevice, haystack, found, inode);
      NewAnswerBacked(fs, missingDevice, haystack, found);
      InodesOfAppend(m.answers, [answer]);
      OneInode(answer);
    }
  }

  lemma OneInode(answer: InodeResult)
    ensures InodesOf([answer]) == [answer.inode]
  {
  }

  lemma ElementsOfWithout(s: seq<Inode>, k: nat)
    requires k < |s|
    ensures forall i <- Without(s, k) :: i in s
  {
  }

  lemma RunningWithLeftovers(
    list: seq<Inode>, fs: FileSystem, missingDevice: bool, haystack: seq<InodeResult>, inode: Inode)
    requires haystack != [] && inode in Run(list, fs, missingDevice, haystack).remaining
    ensures !Run(list, fs, missingDevice, haystack[..|haystack| - 1]).done
  {
    hide Advance;
    var front, last := haystack[..|haystack| - 1], haystack[|haystack| - 1];
    ConsumedWhileRunning(list, fs, missingDevice, haystack);
    assert haystack == front + [last];
    if Run(list, fs, missingDevice, front).done {
      DoneStays(list, fs, missingDevice, front, [last]);
    }
  }

  lemma {:induction false} SomeItemFits(fs: FileSystem, missingDevice: bool, haystack: seq<InodeResult>, j: nat, inode: Inode)
    requires j < |haystack| && Fits(fs, missingDevice, haystack, j, inode)
    ensures FitCount(fs, missingDevice, haystack, inode) > 0
  {
    hide Fits;
    if j < |haystack| - 1 {
      var front, last := haystack[..|haystack| - 1], haystack[|haystack| - 1];
      assert haystack == front + [last];
      FitsLonger(fs, missingDevice, front, last, j, inode);
      SomeItemFits(fs, missingDevice, front, j, inode);
    }
  }

  // An inode searched once is answered for exactly when some item of the haystack fits it.
  lemma FoundIffSomeItemFits(
    list: seq<Inode>, fs: FileSystem, missingDevice: bool, haystack: seq<InodeResult>, inode: Inode)
    requires AllProper(list) && multiset(list)[inode] == 1
    ensures inode in InodesOf(Run(list, fs, missingDevice, haystack).answers) <==>
            FitCount(fs, missingDevice, haystack, inode) > 0
  {
    hide Run, Proper, Fits;
    var m := Run(list, fs, missingDevice, haystack);
    AnsweredPlusRemaining(list, fs, missingDevice, haystack);
    if inode in m.remaining {
      LeftoversLackItems(list, fs, missingDevice, haystack, inode);
    } else {
      var k :| 0 <= k < |m.answers| && InodesOf(m.answers)[k] == inode;
      AnswersAreBacked(list, fs, missingDevice, haystack);
      var answer := m.answers[k];
      assert Backed(fs, missingDevice, haystack, answer);
      var j :| 0 <= j < |haystack| && Fits(fs, missingDevice, haystack, j, answer.inode);
      SomeItemFits(fs, missingDevice, haystack, j, inode);
    }
  }

  lemma FitsSameInode(fs: FileSystem, missingDevice: bool, haystack: seq<InodeResult>, a: Inode, b: Inode)
    requires haystack != [] && Proper(a) && Proper(b) && Fits(fs, missingDevice, haystack, |haystack| - 1, a)
    ensures Fits(fs, missingDevice, haystack, |haystack| - 1, b) <==> a == b
  {
    hide Hits;
    if Fits(fs, missingDevice, haystack, |haystack| - 1, b) {
      SameTargetSameInode(a, b, TargetAt(fs, missingDevice, haystack, |haystack| - 1).value);
    }
  }

  lemma RemainingIsProper(list: seq<Inode>, fs: FileSystem, missingDevice: bool, haystack: seq<InodeResult>)
    requires AllProper(list)
    ensures AllProper(Run(list, fs, missingDevice, haystack).remaining)
  {
    hide Proper, Run;
    AnsweredPlusRemaining(list, fs, missingDevice, haystack);
    var m := Run(list, fs, missingDevice, haystack);
    forall i <- m.remaining ensures i in list {
      assert i in multiset(m.remaining);
      assert i in multiset(list);
    }
  }

  /// Probing the index first loses nothing.

  function EqualIndex(s: seq<Inode>, inode: Inode): (k: nat)
    ensures k <= |s| && (k < |s| ==> s[k] == inode) && forall i | 0 <= i < k :: s[i] != inode
  {
    if s == [] || s[0] == inode then 0 else 1 + EqualIndex(s[1..], inode)
  }

  // A scan that calls stat(2) for every name and compares whole inodes.
  function NaiveAdvance(m: Scan, fs: FileSystem, item: InodeResult): Scan {
    if m.done then m else
    var stat := if item.Success? then fs(m.consumed, item.filename) else StatError(0);
    var k := if stat.Stat? then EqualIndex(m.remaining, FromDeviceAndInode(stat.dev, stat.ino)) else |m.remaining|;
    var statted := if item.Success? then m.statted + [item.filename] else m.statted;
    if k < |m.remaining| then
      Scan(Without(m.remaining, k), m.answers + [Success(m.remaining[k], item.filename)], m.consumed + 1, true, false, statted)
    else if m.remaining == [] then m.(consumed := m.consumed + 1, done := true, statted := statted)
    else m.(consumed := m.consumed + 1, emitted := true, statted := statted)
  }

  function NaiveRun(list: seq<Inode>, fs: FileSystem, haystack: seq<InodeResult>): Scan {
    if haystack == [] then StartScan(list)
    else NaiveAdvance(NaiveRun(list, fs, haystack[..|haystack| - 1]), fs, haystack[|haystack| - 1])
  }

  // readdir(3) and stat(2) agree on the inode number of every name, at any time.
  ghost predicate Agrees(fs: FileSystem, item: InodeResult) {
    item.Success? ==> forall n: nat :: fs(n, item.filename).Stat? ==> fs(n, item.filename).ino == item.inode.inode
  }

  lemma {:induction false} SameIndex(s: seq<Inode>, dev: Word, ino: Word)
    requires AllProper(s)
    ensures FindIndex(s, ino, ByStat(dev, ino)) == EqualIndex(s, FromDeviceAndInode(dev, ino))
  {
    hide DeviceOf, Proper, FromDeviceAndInode;
    if s != [] {
      assert s[0] in s && forall i <- s[1..] :: i in s;
      MatchingByDevice(s[0], dev, ino);
      SameIndex(s[1..], dev, ino);
    }
  }

  lemma SameStep(m: Scan, naive: Scan, fs: FileSystem, item: InodeResult)
    requires naive == m.(statted := naive.statted) && AllProper(m.remaining) && Agrees(fs, item)
    ensures var m', naive' := Advance(m, fs, true, item), NaiveAdvance(naive, fs, item);
            naive' == m'.(statted := naive'.statted) &&
            |m'.statted| - |m.statted| <= |naive'.statted| - |naive.statted|
  {
    hide DeviceOf, Proper, FromDeviceAndInode, FindIndex, EqualIndex, Without;
    if !m.done && item.Success? {
      var stat := fs(m.consumed, item.filename);
      if stat.Stat? {
        SameIndex(m.remaining, stat.dev, stat.ino);
        EqualMeansBucket(m.remaining, stat.dev, stat.ino);
      }
    }
  }

  lemma EqualMeansBucket(s: seq<Inode>, dev: Word, ino: Word)
    ensures EqualIndex(s, FromDeviceAndInode(dev, ino)) < |s| ==> InBucket(s, ino)
  {
    hide Major, Minor, Wide;
    var k := EqualIndex(s, FromDeviceAndInode(dev, ino));
    if k < |s| {
      assert s[k] in s;
    }
  }

  /**
   Where readdir(3) and stat(2) agree on inode numbers, scanning through the index finds the same
   matches in the same order, stops at the same item and leaves the same set as calling stat(2) on
   every name and comparing whole inodes, and never calls stat(2) more often.
   */
  lemma {:induction false} FastIsNaive(list: seq<Inode>, fs: FileSystem, haystack: seq<InodeResult>)
    requires AllProper(list) && forall item <- haystack :: Agrees(fs, item)
    ensures var fast, naive := Run(list, fs, true, haystack), NaiveRun(list, fs, haystack);
            naive == fast.(statted := naive.statted) && |fast.statted| <= |naive.statted|
  {
    if haystack != [] {
      hide Advance, NaiveAdvance, Proper, Agrees;
      var front, last := haystack[..|haystack| - 1], haystack[|haystack| - 1];
      FastIsNaive(list, fs, front);
      RemainingIsProper(list, fs, true, front);
      SameStep(Run(list, fs, true, front), NaiveRun(list, fs, front), fs, last);
    }
  }

  /// Verification.

  // The check of a found name against stat(2), later on.
  function Verify(stat: Text -> StatResult, needsVerification: bool, result: InodeResult): InodeResult {
    if !needsVerification || result.Failure? then result else
    match stat(result.filename)
    case Stat(dev, ino) =>
      if result.inode == FromDeviceAndInode(dev, ino) then result else Failure(result.inode, VERIFICATION_FAILED)
    case StatError(errno) => Failure(result.inode, if errno == ENOENT then VERIFICATION_FAILED else errno)
  }

  function VerifyAll(stat: Text -> StatResult, needsVerification: bool, results: seq<InodeResult>): seq<InodeResult> {
    seq(|results|, i requires 0 <= i < |results| => Verify(stat, needsVerification, results[i]))
  }

  /**
   Verification never changes which inode a result answers for, and a name survives it exactly when
   stat(2) confirms it; one that does not is marked as not verified, or with the error of stat(2) unless the
   file is gone. A failure stays as it is, and without verification everything does.
   */
  lemma VerificationKeepsInodes(stat: Text -> StatResult, results: seq<InodeResult>)
    ensures VerifyAll(stat, false, results) == results
    ensures InodesOf(VerifyAll(stat, true, results)) == InodesOf(results)
    ensures forall i | 0 <= i < |results| :: results[i].Failure? ==> VerifyAll(stat, true, results)[i] == results[i]
    ensures forall i | 0 <= i < |results| && results[i].Success? ::
              var after := VerifyAll(stat, true, results)[i];
              if after.Success? then after == results[i]
              else after.error == match stat(results[i].filename)
                                  case Stat(_, _) => VERIFICATION_FAILED
                                  case StatError(errno) => if errno == ENOENT then VERIFICATION_FAILED else errno
    ensures forall i | 0 <= i < |results| ::
              VerifyAll(stat, true, results)[i].Success? <==>
              results[i].Success? && stat(results[i].filename).Stat? &&
              FromDeviceAndInode(stat(results[i].filename).dev, stat(results[i].filename).ino) == results[i].inode
  {
    hide FromDeviceAndInode;
  }

  /// The search as it runs.

  /**
   Scans a haystack for the inodes of a list. The order in which the multimap lists the inodes is
   not known, only that it lists them all.
   */
  method FilterFilenamesForSpecificInodes(
    haystack: seq<InodeResult>, list: seq<Inode>, missingDevice: bool, needsVerification: bool,
    fs: FileSystem, later: Text -> StatResult)
    returns (results: seq<InodeResult>, consumed: nat, statted: seq<Text>)
    ensures exists order: seq<Inode> ::
              multiset(order) == multiset(list) &&
              var m := Run(order, fs, missingDevice, haystack);
              results == VerifyAll(later, needsVerification, Results(m)) && consumed == m.consumed && statted == m.statted
  {
    hide FindIndex, Hits, VerifyAll, FailAll, Run, Advance;
    var inodes := new InodeSet.OfList(list);
    ghost var order := inodes.inodes;
    var answers: seq<InodeResult>, emitted := [], false;
    consumed, statted := 0, [];
    ghost var m := StartScan(order);
    RunUnfold(order, fs, missingDevice, haystack);
    for i := 0 to |haystack|
      invariant m == Scan(inodes.inodes, answers, consumed, emitted, false, statted)
      invariant m == Run(order, fs, missingDevice, haystack[..i])
      invariant fresh(inodes)
    {
      var item := haystack[i];
      m := Advance(m, fs, missingDevice, item);
      NextRun(order, fs, missingDevice, haystack, i);
      var hit: Option<Inode>;
      hit, statted := Probe(inodes, answers, consumed, emitted, statted, fs, missingDevice, item);
      consumed := consumed + 1;
      if inodes.inodes == [] && hit.None? {
        assert m == Scan(inodes.inodes, answers, consumed, emitted, true, statted);
        break;
      }
      emitted := true;
      if hit.Some? {
        answers := answers + [AnswerFor(missingDevice, item, hit.value)];
      }
    }
    assert haystack[..|haystack|] == haystack;
    assert m == Run(order, fs, missingDevice, haystack);
    var left := if emitted then FailAll(inodes.inodes) else [];
    results := VerifyAll(later, needsVerification, answers + left);
  }

  lemma RunUnfold(list: seq<Inode>, fs: FileSystem, missingDevice: bool, haystack: seq<InodeResult>)
    ensures Run(list, fs, missingDevice, haystack[..0]) == StartScan(list)
  {
  }

  // What the first i+1 items, and if they end the scan all of them, come to after the first i.
  lemma NextRun(list: seq<Inode>, fs: FileSystem, missingDevice: bool, haystack: seq<InodeResult>, i: nat)
    requires i < |haystack|
    ensures var m := Advance(Run(list, fs, missingDevice, haystack[..i]), fs, missingDevice, haystack[i]);
            Run(list, fs, missingDevice, haystack[..i + 1]) == m &&
            (m.done ==> Run(list, fs, missingDevice, haystack) == m)
  {
    hide Advance;
    assert haystack[..i + 1][..i] == haystack[..i];
    assert haystack == haystack[..i + 1] + haystack[i + 1..];
    if Run(list, fs, missingDevice, haystack[..i + 1]).done {
      DoneStays(list, fs, missingDevice, haystack[..i + 1], haystack[i + 1..]);
    }
  }

  // One item against the set: probes the index, and asks stat(2) only on a possible hit.
  method Probe(
    inodes: InodeSet, ghost answers: seq<InodeResult>, consumed: nat, ghost emitted: bool, before: seq<Text>,
    fs: FileSystem, missingDevice: bool, item: InodeResult)
    returns (found: Option<Inode>, statted: seq<Text>)
    modifies inodes
    ensures var m := Advance(Scan(old(inodes.inodes), answers, consumed, emitted, false, before), fs, missingDevice, item);
            m == Scan(inodes.inodes,
                      if found.Some? then answers + [AnswerFor(missingDevice, item, found.value)] else answers,
                      consumed + 1,
                      if inodes.inodes == [] && found.None? then emitted else true,
                      inodes.inodes == [] && found.None?,
                      statted)
  {
    hide FindIndex, Hits, Without, AnswerFor;
    found, statted := None, before;
    if !inodes.HasBucket(item.inode.inode) {
      return;
    }
    if !missingDevice {
      found := inodes.FindAndRemove(item.inode.inode, ByInode(item.inode));
    } else if item.Success? {
      statted := statted + [item.filename];
      var stat := fs(consumed, item.filename);
      if stat.Stat? {
        found := inodes.FindAndRemove(item.inode.inode, ByStat(stat.dev, stat.ino));
      }
    }
  }

  /// How often stat(2) is called.

  // An item's name is asked about exactly if the scan goes on, the item has no device, and a searched inode has its number.
  lemma StatsOnlyCandidates(
    list: seq<Inode>, fs: FileSystem, missingDevice: bool, haystack: seq<InodeResult>, item: InodeResult)
    ensures var m, m' := Run(list, fs, missingDevice, haystack), Run(list, fs, missingDevice, haystack + [item]);
            m'.statted == m.statted +
              if !m.done && missingDevice && item.Success? && exists i <- m.remaining :: i.inode == item.inode.inode
              then [item.filename] else []
  {
    hide FindIndex, Hits, Without;
    assert (haystack + [item])[..|haystack|] == haystack;
  }
}
