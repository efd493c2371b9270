/** The order in which merged events come out, said of their fields alone. */
module MergeOrder {
  import opened Bytes
  import opened PageCacheMerge

  // Two texts are the same up to their first k bytes.
  predicate AgreeUpTo(a: Text, b: Text, k: nat) {
    k <= |a| && k <= |b| && forall i | 0 <= i < k :: a[i] == b[i]
  }

  // They differ first at k, where `a` is over or has the smaller byte.
  predicate SmallerAt(a: Text, b: Text, k: nat) {
    AgreeUpTo(a, b, k) && k < |b| && (k < |a| ==> a[k] < b[k])
  }

  predicate AlphabeticallyBefore(a: Text, b: Text) {
    exists k | 0 <= k <= |a| :: SmallerAt(a, b, k)
  }

  lemma TailsDiffer(a: Text, b: Text, k: nat)
    requires a != [] && b != [] && a[0] == b[0]
    ensures SmallerAt(a[1..], b[1..], k) <==> SmallerAt(a, b, k + 1)
  {
    if SmallerAt(a, b, k + 1) {
      forall i | 0 <= i < k ensures a[1..][i] == b[1..][i] {
        assert a[i + 1] == b[i + 1];
      }
      assert k < |a[1..]| ==> a[1..][k] == a[k + 1];
    }
  }

  // The recursive comparison is the one by the first difference.
  lemma {:induction false} TextLessIsAlphabetical(a: Text, b: Text)
    ensures TextLess(a, b) <==> AlphabeticallyBefore(a, b)
  {
    if a == [] || b == [] || a[0] != b[0] {
      if TextLess(a, b) {
        assert SmallerAt(a, b, 0);
      }
    } else {
      TextLessIsAlphabetical(a[1..], b[1..]);
      if AlphabeticallyBefore(a[1..], b[1..]) {
        var k: nat :| SmallerAt(a[1..], b[1..], k);
        TailsDiffer(a, b, k);
      }
      if AlphabeticallyBefore(a, b) {
        var k: nat :| SmallerAt(a, b, k);
        TailsDiffer(a, b, k - 1);
      }
    }
  }

  // Earlier first; then by file name, deletions before additions, and by page.
  predicate ComesBefore(a: CompilerEvent, b: CompilerEvent) {
    || a.timestampRelative < b.timestampRelative
    || (a.timestampRelative == b.timestampRelative &&
        (|| AlphabeticallyBefore(a.filename, b.filename)
         || (a.filename == b.filename && !a.addToPageCache && b.addToPageCache)
         || (a.filename == b.filename && a.addToPageCache == b.addToPageCache && a.index < b.index)))
  }

  lemma LessIsComesBefore(a: CompilerEvent, b: CompilerEvent)
    ensures Before(ByTime, a, b) <==> ComesBefore(a, b)
  {
    hide TextLess, AlphabeticallyBefore;
    TextLessIsAlphabetical(a.filename, b.filename);
    TextLessIsTotal(a.filename, b.filename);
  }

  /**
   Compiled events come out in the order of their times, those of one time by file name, deletions
   before additions of the same file, and then by page.
   */
  lemma OutputInOrder(input: seq<CompilerEvent>, output: seq<CompilerEvent>)
    requires CanonicalMerge(input, output)
    ensures forall i, j | 0 <= i < j < |output| :: ComesBefore(output[i], output[j])
  {
    hide Before, ComesBefore, Merges;
    forall i, j | 0 <= i < j < |output| ensures ComesBefore(output[i], output[j]) {
      LessIsComesBefore(output[i], output[j]);
    }
  }

  // The same page of the same file, in the same direction.
  predicate Alike(a: CompilerEvent, b: CompilerEvent) {
    a.filename == b.filename && a.addToPageCache == b.addToPageCache && a.index == b.index
  }

  // No two are alike, each is one that went in, as the earliest of its like, and nothing is without its like.
  lemma OneOfEachLike(input: seq<CompilerEvent>, output: seq<CompilerEvent>)
    requires CanonicalMerge(input, output)
    ensures forall i, j | 0 <= i < j < |output| :: !Alike(output[i], output[j])
    ensures forall e <- output :: e in input && forall x <- input :: Alike(x, e) ==> e.timestampRelative <= x.timestampRelative
    ensures forall x <- input :: exists e <- output :: Alike(e, x)
  {
    hide Alike, KeyOf, Sorted;
    forall a, b ensures Alike(a, b) <==> KeyOf(a) == KeyOf(b) {
      AlikeIsSameKey(a, b);
    }
    OneEventPerKey(input, output);
    forall x <- input ensures exists e <- output :: Alike(e, x) {
      var e := Representative(output, x);
      assert Alike(e, x);
    }
  }

  lemma AlikeIsSameKey(a: CompilerEvent, b: CompilerEvent)
    ensures Alike(a, b) <==> KeyOf(a) == KeyOf(b)
  {
  }
}
