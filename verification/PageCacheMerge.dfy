/**
 Merging page-cache events: one set orders events by everything but their timestamp and keeps the
 smallest timestamp of each, then a second set orders what is left by timestamp first.
 */
module PageCacheMerge {
  import opened Bytes

  datatype CompilerEvent = CompilerEvent(filename: Text, timestampRelative: uint64, addToPageCache: bool, index: uint64)

  datatype Key = Key(filename: Text, addToPageCache: bool, index: uint64)

  function KeyOf(e: CompilerEvent): Key {
    Key(e.filename, e.addToPageCache, e.index)
  }

  /// The two orders.

  // std::lexicographical_compare.
  predicate TextLess(a: Text, b: Text) {
    b != [] && (a == [] || a[0] < b[0] || (a[0] == b[0] && TextLess(a[1..], b[1..])))
  }

  predicate LessIgnoringTimestamp(a: CompilerEvent, b: CompilerEvent) {
    if a.filename != b.filename then TextLess(a.filename, b.filename)
    else if a.addToPageCache != b.addToPageCache then b.addToPageCache
    else a.index < b.index
  }

  predicate Less(a: CompilerEvent, b: CompilerEvent) {
    if a.timestampRelative != b.timestampRelative then a.timestampRelative < b.timestampRelative
    else LessIgnoringTimestamp(a, b)
  }

  // The order a set is built with.
  datatype Order = ByKey | ByTime

  predicate Before(order: Order, a: CompilerEvent, b: CompilerEvent) {
    if order.ByKey? then LessIgnoringTimestamp(a, b) else Less(a, b)
  }

  lemma {:induction false} TextLessIsTotal(a: Text, b: Text)
    ensures !(TextLess(a, b) && TextLess(b, a))
    ensures !TextLess(a, b) && !TextLess(b, a) <==> a == b
  {
    if a != [] && b != [] {
      TextLessIsTotal(a[1..], b[1..]);
      assert a[0] == b[0] && a[1..] == b[1..] ==> a == [a[0]] + a[1..] == b;
    }
  }

  lemma {:induction false} TextLessIsTransitive(a: Text, b: Text, c: Text)
    requires TextLess(a, b) && TextLess(b, c)
    ensures TextLess(a, c)
  {
    if a != [] && a[0] == b[0] == c[0] {
      TextLessIsTransitive(a[1..], b[1..], c[1..]);
    }
  }

  /**
   Both orders are strict total orders: one up to the timestamp, the other without exception. So the
   first set never holds one key twice, and the second never drops an event of the first.
   */
  lemma OrdersAreTotal(order: Order, a: CompilerEvent, b: CompilerEvent)
    ensures !(Before(order, a, b) && Before(order, b, a))
    ensures !Before(order, a, b) && !Before(order, b, a) <==>
            if order.ByKey? then KeyOf(a) == KeyOf(b) else a == b
  {
    hide TextLess;
    TextLessIsTotal(a.filename, b.filename);
  }

  lemma OrdersAreTransitive(order: Order, a: CompilerEvent, b: CompilerEvent, c: CompilerEvent)
    requires Before(order, a, b) && Before(order, b, c)
    ensures Before(order, a, c)
  {
    hide TextLess;
    TextLessIsTotal(a.filename, b.filename);
    TextLessIsTotal(b.filename, c.filename);
    TextLessIsTotal(a.filename, c.filename);
    if TextLess(a.filename, b.filename) && TextLess(b.filename, c.filename) {
      TextLessIsTransitive(a.filename, b.filename, c.filename);
    }
  }

  /// Ordered sets, as ascending sequences.

  predicate Sorted(order: Order, s: seq<CompilerEvent>) {
    forall i, j | 0 <= i < j < |s| :: Before(order, s[i], s[j])
  }

  // The position of the first element not before `e`.
  method LowerBound(order: Order, s: seq<CompilerEvent>, e: CompilerEvent) returns (k: nat, found: bool)
    requires Sorted(order, s)
    ensures k <= |s| && (forall i | 0 <= i < k :: Before(order, s[i], e))
    ensures found <==> k < |s| && !Before(order, s[k], e) && !Before(order, e, s[k])
    ensures forall i | k <= i < |s| :: if found && i == k then !Before(order, e, s[i]) else Before(order, e, s[i])
  {
    hide Before;
    k := 0;
    while k < |s| && Before(order, s[k], e)
      invariant k <= |s| && forall i | 0 <= i < k :: Before(order, s[i], e)
    {
      k := k + 1;
    }
    found := k < |s| && !Before(order, e, s[k]);
    forall i | k <= i < |s| ensures if found && i == k then !Before(order, e, s[i]) else Before(order, e, s[i]) {
      if found && k < i {
        SameSide(order, e, s[k], s[i]);
      } else if k < i {
        OrdersAreTransitive(order, e, s[k], s[i]);
      }
    }
  }

  // What follows an element equivalent to `e` follows `e`.
  lemma SameSide(order: Order, e: CompilerEvent, x: CompilerEvent, y: CompilerEvent)
    requires !Before(order, x, e) && !Before(order, e, x) && Before(order, x, y)
    ensures Before(order, e, y)
  {
    OrdersAreTotal(order, x, e);
  }

  function InsertAt(s: seq<CompilerEvent>, k: nat, e: CompilerEvent): seq<CompilerEvent>
    requires k <= |s|
  {
    s[..k] + [e] + s[k..]
  }

  lemma InsertKeepsSorted(order: Order, s: seq<CompilerEvent>, k: nat, e: CompilerEvent)
    requires Sorted(order, s) && k <= |s|
    requires forall i | 0 <= i < k :: Before(order, s[i], e)
    requires forall i | k <= i < |s| :: Before(order, e, s[i])
    ensures Sorted(order, InsertAt(s, k, e))
    ensures forall x :: x in InsertAt(s, k, e) <==> x == e || x in s
  {
    hide Before;
    assert s == s[..k] + s[k..];
  }

  /// What merging means.

  // Each event stands for its key with the smallest timestamp, and every key is there.
  ghost predicate Merges(input: seq<CompilerEvent>, merged: seq<CompilerEvent>) {
    (forall e <- merged :: e in input && Earliest(input, e)) && forall x <- input :: Represented(merged, x)
  }

  predicate Earliest(input: seq<CompilerEvent>, e: CompilerEvent) {
    forall x <- input :: KeyOf(x) == KeyOf(e) ==> e.timestampRelative <= x.timestampRelative
  }

  predicate Represented(merged: seq<CompilerEvent>, x: CompilerEvent) {
    exists e <- merged :: KeyOf(e) == KeyOf(x)
  }

  ghost predicate CanonicalMerge(input: seq<CompilerEvent>, output: seq<CompilerEvent>) {
    Sorted(ByTime, output) && Merges(input, output)
  }

  lemma MergesNewKey(input: seq<CompilerEvent>, s: seq<CompilerEvent>, e: CompilerEvent, s': seq<CompilerEvent>)
    requires Merges(input, s) && forall y <- s :: KeyOf(y) != KeyOf(e)
    requires forall x :: x in s' <==> x == e || x in s
    ensures Merges(input + [e], s')
  {
    forall x <- input + [e] ensures Represented(s', x) {
      if x in input {
        var y :| y in s && KeyOf(y) == KeyOf(x);
        assert y in s';
      } else {
        assert e in s';
      }
    }
    forall x <- input ensures KeyOf(x) != KeyOf(e) {
      assert Represented(s, x);
    }
  }

  lemma MergesEarlier(
    input: seq<CompilerEvent>, s: seq<CompilerEvent>, y: CompilerEvent, e: CompilerEvent, s': seq<CompilerEvent>)
    requires Merges(input, s) && y in s && KeyOf(y) == KeyOf(e) && e.timestampRelative < y.timestampRelative
    requires forall x <- s :: KeyOf(x) == KeyOf(e) ==> x == y
    requires forall x :: x in s' <==> x == e || (x in s && x != y)
    ensures Merges(input + [e], s')
  {
    assert Earliest(input, y);
    forall x <- input + [e] ensures Represented(s', x) {
      assert e in s';
      if x in input && KeyOf(x) != KeyOf(e) {
        assert Represented(s, x);
        var z :| z in s && KeyOf(z) == KeyOf(x);
        assert z in s';
      }
    }
  }

  lemma MergesLater(input: seq<CompilerEvent>, s: seq<CompilerEvent>, y: CompilerEvent, e: CompilerEvent)
    requires Merges(input, s) && y in s && KeyOf(y) == KeyOf(e) && y.timestampRelative <= e.timestampRelative
    ensures Merges(input + [e], s)
  {
    hide Represented;
    RepresentsKey(s, y, e);
    forall x <- s ensures x in input + [e] && Earliest(input + [e], x) {
      if KeyOf(x) == KeyOf(e) {
        assert Earliest(input, x) && y in input;
      }
    }
  }

  /// The compilation.

  // Takes one event into the set that ignores timestamps.
  method MergeEvent(ghost input: seq<CompilerEvent>, s: seq<CompilerEvent>, e: CompilerEvent)
    returns (s': seq<CompilerEvent>)
    requires Sorted(ByKey, s) && Merges(input, s)
    ensures Sorted(ByKey, s') && Merges(input + [e], s')
  {
    hide Merges;
    var it, found := LowerBound(ByKey, s, e);
    forall i | 0 <= i < |s| ensures KeyOf(s[i]) == KeyOf(e) <==> found && i == it {
      OrdersAreTotal(ByKey, s[i], e);
    }
    if !found {
      s' := InsertAt(s, it, e);
      InsertKeepsSorted(ByKey, s, it, e);
      MergesNewKey(input, s, e, s');
    } else if s[it].timestampRelative > e.timestampRelative {
      var rest := s[..it] + s[it + 1..];
      assert forall i | it <= i < |rest| :: rest[i] == s[i + 1];
      s' := InsertAt(rest, it, e);
      InsertKeepsSorted(ByKey, rest, it, e);
      EraseElements(s, it);
      MergesEarlier(input, s, s[it], e, s');
    } else {
      s' := s;
      MergesLater(input, s, s[it], e);
    }
  }

  lemma EraseElements(s: seq<CompilerEvent>, k: nat)
    requires k < |s| && Sorted(ByKey, s)
    ensures forall x :: x in s[..k] + s[k + 1..] <==> x in s && x != s[k]
    ensures Sorted(ByKey, s[..k] + s[k + 1..])
  {
    hide Before;
    assert s == s[..k] + [s[k]] + s[k + 1..];
    forall i | 0 <= i < |s| && i != k ensures s[i] != s[k] {
      OrdersAreTotal(ByKey, s[i], s[k]);
    }
  }

  // Moves one event into the set ordered by time; it stays behind if an equivalent one is there.
  method MoveEvent(s: seq<CompilerEvent>, e: CompilerEvent) returns (s': seq<CompilerEvent>, moved: bool)
    requires Sorted(ByTime, s)
    ensures Sorted(ByTime, s') && (moved <==> e !in s) && |s'| == |s| + (if moved then 1 else 0)
    ensures forall x :: x in s' <==> x == e || x in s
  {
    var it, found := LowerBound(ByTime, s, e);
    forall i | 0 <= i < |s| ensures s[i] == e <==> found && i == it {
      OrdersAreTotal(ByTime, s[i], e);
    }
    if found {
      return s, false;
    }
    InsertKeepsSorted(ByTime, s, it, e);
    return InsertAt(s, it, e), true;
  }

  lemma NothingMerges()
    ensures Merges([], [])
  {
  }

  method CompilePageCacheEvents(events: seq<CompilerEvent>) returns (output: seq<CompilerEvent>)
    ensures CanonicalMerge(events, output)
  {
    hide Before, Merges;
    NothingMerges();
    var keyed: seq<CompilerEvent> := [];
    for i := 0 to |events|
      invariant Sorted(ByKey, keyed) && Merges(events[..i], keyed)
    {
      keyed := MergeEvent(events[..i], keyed, events[i]);
      assert events[..i + 1] == events[..i] + [events[i]];
    }
    assert events[..|events|] == events;
    output := [];
    for j := 0 to |keyed|
      invariant Sorted(ByTime, output) && |output| == j
      invariant forall x :: x in output <==> x in keyed[..j]
    {
      forall i | 0 <= i < j ensures keyed[i] != keyed[j] {
        OrdersAreTotal(ByKey, keyed[i], keyed[j]);
      }
      var moved;
      output, moved := MoveEvent(output, keyed[j]);
      assert moved;  // nothing is left behind in the first set
      assert keyed[..j + 1] == keyed[..j] + [keyed[j]];
    }
    assert keyed[..|keyed|] == keyed;
    SameElementsMerge(events, keyed, output);
  }

  lemma SameElementsMerge(input: seq<CompilerEvent>, a: seq<CompilerEvent>, b: seq<CompilerEvent>)
    requires Merges(input, a) && forall x :: x in b <==> x in a
    ensures Merges(input, b)
  {
    forall x <- input ensures Represented(b, x) {
      assert Represented(a, x);
      var e :| e in a && KeyOf(e) == KeyOf(x);
      assert e in b;
    }
  }

  /// What follows from the meaning.

  // Exactly one event comes out for each key that went in.
  lemma OneEventPerKey(input: seq<CompilerEvent>, output: seq<CompilerEvent>)
    requires CanonicalMerge(input, output)
    ensures forall i, j | 0 <= i < j < |output| :: KeyOf(output[i]) != KeyOf(output[j])
    ensures (set e | e in output :: KeyOf(e)) == (set x | x in input :: KeyOf(x))
  {
    forall i, j | 0 <= i < j < |output| ensures KeyOf(output[i]) != KeyOf(output[j]) {
      OrdersAreTotal(ByTime, output[i], output[j]);
      assert Earliest(input, output[i]) && Earliest(input, output[j]);
    }
    forall x <- input ensures exists e <- output :: KeyOf(e) == KeyOf(x) {
      assert Represented(output, x);
    }
  }

  lemma HasElement(s: seq<CompilerEvent>)
    requires s != []
    ensures exists x :: x in s
  {
    assert s[0] in s;
  }

  lemma {:induction false} SortedIsUnique(a: seq<CompilerEvent>, b: seq<CompilerEvent>)
    requires Sorted(ByTime, a) && Sorted(ByTime, b) && forall x :: x in a <==> x in b
    ensures a == b
  {
    hide Before;
    if a == [] {
      if b != [] { HasElement(b); }
    } else if b == [] {
      HasElement(a);
    } else {
      assert a[0] in b && b[0] in a;
      OrdersAreTotal(ByTime, a[0], b[0]);
      assert a[0] == b[0];
      forall x ensures x in a[1..] <==> x in b[1..] {
        OrdersAreTotal(ByTime, a[0], x);
        assert x in a <==> x == a[0] || x in a[1..];
        assert x in b <==> x == b[0] || x in b[1..];
        assert x in a[1..] ==> Before(ByTime, a[0], x);
        assert x in b[1..] ==> Before(ByTime, b[0], x);
      }
      SortedIsUnique(a[1..], b[1..]);
    }
  }

  lemma Representative(merged: seq<CompilerEvent>, x: CompilerEvent) returns (e: CompilerEvent)
    requires Represented(merged, x)
    ensures e in merged && KeyOf(e) == KeyOf(x)
  {
    e :| e in merged && KeyOf(e) == KeyOf(x);
  }

  lemma EarliestIsUnique(input: seq<CompilerEvent>, x: CompilerEvent, y: CompilerEvent)
    requires x in input && y in input && KeyOf(x) == KeyOf(y) && Earliest(input, x) && Earliest(input, y)
    ensures x == y
  {
  }

  lemma EarliestAmong(input: seq<CompilerEvent>, some: seq<CompilerEvent>, x: CompilerEvent)
    requires Earliest(input, x) && forall y <- some :: y in input
    ensures Earliest(some, x)
  {
  }

  /**
   The output depends only on which events occur: neither their order nor their multiplicity in the
   input matters.
   */
  lemma OrderIsIrrelevant(
    input: seq<CompilerEvent>, input': seq<CompilerEvent>, output: seq<CompilerEvent>, output': seq<CompilerEvent>)
    requires CanonicalMerge(input, output) && CanonicalMerge(input', output')
    requires forall x :: x in input <==> x in input'
    ensures output == output'
  {
    hide Before, Represented, Earliest;
    SameEvents(input, input', output, output');
    SameEvents(input', input, output', output);
    SortedIsUnique(output, output');
  }

  lemma SameEvents(
    input: seq<CompilerEvent>, input': seq<CompilerEvent>, output: seq<CompilerEvent>, output': seq<CompilerEvent>)
    requires Merges(input, output) && Merges(input', output')
    requires forall x :: x in input <==> x in input'
    ensures forall x <- output :: x in output'
  {
    hide Represented, Earliest;
    forall x <- output ensures x in output' {
      assert x in input';
      var y := Representative(output', x);
      EarliestAmong(input', input, y);
      EarliestIsUnique(input, x, y);
    }
  }

  lemma RepresentsKey(merged: seq<CompilerEvent>, e: CompilerEvent, x: CompilerEvent)
    requires e in merged && KeyOf(e) == KeyOf(x)
    ensures Represented(merged, x)
  {
  }

  // Compiling what has been compiled changes nothing.
  lemma CompilingIsIdempotent(input: seq<CompilerEvent>, output: seq<CompilerEvent>, again: seq<CompilerEvent>)
    requires CanonicalMerge(input, output) && CanonicalMerge(output, again)
    ensures again == output
  {
    hide Before, Represented, Earliest;
    forall x <- output ensures Represented(output, x) && Earliest(output, x) {
      RepresentsKey(output, x, x);
      EarliestAmong(input, output, x);
    }
    OrderIsIrrelevant(output, output, output, again);
  }

  function Keep(events: seq<CompilerEvent>, blacklisted: Text -> bool): seq<CompilerEvent> {
    if events == [] then []
    else Keep(events[..|events| - 1], blacklisted) +
         if blacklisted(events[|events| - 1].filename) then [] else [events[|events| - 1]]
  }

  lemma {:induction false} KeepElements(events: seq<CompilerEvent>, blacklisted: Text -> bool)
    ensures forall x :: x in Keep(events, blacklisted) <==> x in events && !blacklisted(x.filename)
  {
    if events != [] {
      KeepElements(events[..|events| - 1], blacklisted);
      assert events == events[..|events| - 1] + [events[|events| - 1]];
    }
  }

  lemma {:induction false} KeepSorted(events: seq<CompilerEvent>, blacklisted: Text -> bool)
    requires Sorted(ByTime, events)
    ensures Sorted(ByTime, Keep(events, blacklisted))
  {
    if events != [] {
      hide Before;
      var front := events[..|events| - 1];
      KeepSorted(front, blacklisted);
      KeepElements(front, blacklisted);
      forall x <- Keep(front, blacklisted) ensures Before(ByTime, x, events[|events| - 1]) {
        assert x in front;
      }
    }
  }

  // Dropping blacklisted files before merging is dropping them after.
  lemma BlacklistCommutes(
    events: seq<CompilerEvent>, blacklisted: Text -> bool, output: seq<CompilerEvent>, filtered: seq<CompilerEvent>)
    requires CanonicalMerge(events, output) && CanonicalMerge(Keep(events, blacklisted), filtered)
    ensures filtered == Keep(output, blacklisted)
  {
    hide Before, Keep, Represented, Earliest;
    KeepElements(events, blacklisted);
    KeepElements(output, blacklisted);
    KeepSorted(output, blacklisted);
    var input, kept := Keep(events, blacklisted), Keep(output, blacklisted);
    forall e <- kept ensures e in input && Earliest(input, e) {
      EarliestAmong(events, input, e);
    }
    forall x <- input ensures Represented(kept, x) {
      var e := Representative(output, x);
      RepresentsKey(kept, e, x);
    }
    OrderIsIrrelevant(input, input, filtered, kept);
  }
}
