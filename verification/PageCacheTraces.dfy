/**
 Selecting the page-cache events of a trace: the start of the trace is the smallest timestamp in it,
 and every add or delete event up to a time limit comes out with its time since that start.
 */
module PageCacheTraces {
  import opened Wrappers
  import opened Bytes
  import opened Inodes

  datatype MmEvent = MmEvent(pfn: uint64, ino: Word, index: uint64, dev: Word, page: uint64)

  datatype FtraceEvent = FtraceEvent(timestamp: Option<uint64>, pid: uint32, add: Option<MmEvent>, delete: Option<MmEvent>)

  datatype Bundle = Bundle(cpu: uint32, events: seq<FtraceEvent>)

  datatype Packet = Packet(timestamp: Option<uint64>, bundle: Option<Bundle>)

  type Trace = seq<Packet>

  datatype PageCacheEvent = PageCacheEvent(
    cpu: uint32, timestamp: uint64, pid: uint32, timestampRelative: uint64, addToPageCache: bool, mm: MmEvent)

  function InodeOf(e: PageCacheEvent): Inode {
    FromDeviceAndInode(e.mm.dev, e.mm.ino)
  }

  function EventsOf(packet: Packet): seq<FtraceEvent> {
    if packet.bundle.Some? then packet.bundle.value.events else []
  }

  /// The start of a trace.

  function Stamp(timestamp: Option<uint64>): seq<uint64> {
    if timestamp.Some? then [timestamp.value] else []
  }

  function EventStamps(events: seq<FtraceEvent>): seq<uint64> {
    if events == [] then [] else EventStamps(events[..|events| - 1]) + Stamp(events[|events| - 1].timestamp)
  }

  // Every timestamp in a trace, of packets and of events.
  function Stamps(trace: Trace): seq<uint64> {
    if trace == [] then [] else
    var last := trace[|trace| - 1];
    Stamps(trace[..|trace| - 1]) + Stamp(last.timestamp) + EventStamps(EventsOf(last))
  }

  // `start` is the smallest of the stamps, if there are any.
  predicate IsMinimum(start: Option<uint64>, stamps: seq<uint64>) {
    if stamps == [] then start.None? else start.Some? && start.value in stamps && forall t <- stamps :: start.value <= t
  }

  function Smaller(start: Option<uint64>, timestamp: uint64): Option<uint64> {
    if start.None? || timestamp < start.value then Some(timestamp) else start
  }

  lemma SmallerIsMinimum(start: Option<uint64>, stamps: seq<uint64>, timestamp: uint64)
    requires IsMinimum(start, stamps)
    ensures IsMinimum(Smaller(start, timestamp), stamps + [timestamp])
  {
    if stamps != [] {
      assert forall t <- stamps :: t in stamps + [timestamp];
    }
  }

  lemma LastStamps(trace: Trace)
    requires trace != []
    ensures var last := trace[|trace| - 1];
            Stamps(trace) == Stamps(trace[..|trace| - 1]) + Stamp(last.timestamp) + EventStamps(EventsOf(last))
  {
  }

  method GetStartTimestamp(trace: Trace) returns (start: Option<uint64>)
    ensures IsMinimum(start, Stamps(trace))
  {
    hide IsMinimum, Stamps, EventStamps;
    start := None;
    NoStamps(trace);
    for i := 0 to |trace|
      invariant IsMinimum(start, Stamps(trace[..i]))
    {
      var packet := trace[i];
      assert trace[..i + 1][..i] == trace[..i];
      ghost var before := Stamps(trace[..i]);
      assert before + [] == before;
      LastStamps(trace[..i + 1]);
      if packet.timestamp.Some? {
        SmallerIsMinimum(start, before, packet.timestamp.value);
        start := Smaller(start, packet.timestamp.value);
      }
      start := StartOfEvents(start, before + Stamp(packet.timestamp), EventsOf(packet));
    }
    assert trace[..|trace|] == trace;
  }

  method StartOfEvents(first: Option<uint64>, ghost stamps: seq<uint64>, events: seq<FtraceEvent>)
    returns (start: Option<uint64>)
    requires IsMinimum(first, stamps)
    ensures IsMinimum(start, stamps + EventStamps(events))
  {
    hide IsMinimum;
    start := first;
    assert stamps + EventStamps(events[..0]) == stamps;
    for j := 0 to |events|
      invariant IsMinimum(start, stamps + EventStamps(events[..j]))
    {
      assert events[..j + 1][..j] == events[..j];
      if events[j].timestamp.Some? {
        var timestamp := events[j].timestamp.value;
        SmallerIsMinimum(start, stamps + EventStamps(events[..j]), timestamp);
        assert stamps + EventStamps(events[..j]) + [timestamp] == stamps + EventStamps(events[..j + 1]);
        start := Smaller(start, timestamp);
      } else {
        assert EventStamps(events[..j + 1]) == EventStamps(events[..j]);
      }
    }
    assert events[..|events|] == events;
  }

  lemma NoStamps(trace: Trace)
    ensures IsMinimum(None, Stamps(trace[..0]))
  {
  }

  /// Selection, as a machine over the events in order.

  // The clock of the machine, and what has come out.
  datatype Selection = Selection(timestamp: uint64, out: seq<PageCacheEvent>)

  // Unsigned 64-bit subtraction.
  function Since(timestamp: uint64, start: Option<uint64>): uint64 {
    if start.None? then 0
    else if start.value <= timestamp then timestamp - start.value
    else timestamp - start.value + 0x1_0000_0000_0000_0000
  }

  predicate Selects(event: FtraceEvent) {
    event.add.Some? || event.delete.Some?
  }

  function Emit(timestamp: uint64, relative: uint64, cpu: uint32, event: FtraceEvent): PageCacheEvent
    requires Selects(event)
  {
    PageCacheEvent(cpu, timestamp, event.pid, relative, event.add.Some?,
                   if event.add.Some? then event.add.value else event.delete.value)
  }

  // An event without a timestamp of its own keeps the clock as it is, and is not held to the limit.
  function SelectEvent(s: Selection, start: Option<uint64>, cpu: uint32, limit: uint64, event: FtraceEvent): Selection {
    var timestamp := if event.timestamp.Some? then event.timestamp.value else s.timestamp;
    if (event.timestamp.Some? && timestamp > limit) || !Selects(event) then s.(timestamp := timestamp)
    else Selection(timestamp, s.out + [Emit(timestamp, Since(timestamp, start), cpu, event)])
  }

  function SelectEvents(s: Selection, start: Option<uint64>, cpu: uint32, limit: uint64, events: seq<FtraceEvent>)
    : Selection
  {
    if events == [] then s
    else SelectEvent(SelectEvents(s, start, cpu, limit, events[..|events| - 1]), start, cpu, limit, events[|events| - 1])
  }

  // A packet resets the clock to its own timestamp, or to zero.
  function SelectPacket(s: Selection, start: Option<uint64>, limit: uint64, packet: Packet): Selection {
    var s' := s.(timestamp := if packet.timestamp.Some? then packet.timestamp.value else 0);
    if packet.bundle.Some? then SelectEvents(s', start, packet.bundle.value.cpu, limit, packet.bundle.value.events) else s'
  }

  function SelectAll(start: Option<uint64>, limit: uint64, trace: Trace): Selection {
    if trace == [] then Selection(0, [])
    else SelectPacket(SelectAll(start, limit, trace[..|trace| - 1]), start, limit, trace[|trace| - 1])
  }

  method SelectPageCacheFtraceEvents(trace: Trace, limit: uint64) returns (out: seq<PageCacheEvent>)
    ensures exists start :: IsMinimum(start, Stamps(trace)) && out == SelectAll(start, limit, trace).out
  {
    var timestamp: uint64 := 0;
    var start := GetStartTimestamp(trace);
    ghost var first := start;
    out := [];
    for i := 0 to |trace|
      invariant start == first
      invariant Selection(timestamp, out) == SelectAll(start, limit, trace[..i])
    {
      hide IsMinimum, Stamps;
      var packet := trace[i];
      assert trace[..i + 1][..i] == trace[..i];
      if packet.timestamp.Some? {
        StampedHasStart(trace, i, start);
        start := if start.Some? then start else packet.timestamp;
        timestamp := packet.timestamp.value;
      } else {
        timestamp := 0;
      }
      if packet.bundle.Some? {
        timestamp, out := SelectFromBundle(timestamp, out, start, limit, packet.bundle.value);
      }
    }
    assert trace[..|trace|] == trace;
  }

  // The events of one bundle; `clock` and `before` are the state it finds.
  method SelectFromBundle(clock: uint64, before: seq<PageCacheEvent>, start: Option<uint64>, limit: uint64, bundle: Bundle)
    returns (timestamp: uint64, out: seq<PageCacheEvent>)
    ensures Selection(timestamp, out) ==
            SelectEvents(Selection(clock, before), start, bundle.cpu, limit, bundle.events)
  {
    timestamp, out := clock, before;
    for j := 0 to |bundle.events|
      invariant Selection(timestamp, out) ==
                SelectEvents(Selection(clock, before), start, bundle.cpu, limit, bundle.events[..j])
    {
      var event := bundle.events[j];
      assert bundle.events[..j + 1][..j] == bundle.events[..j];
      if event.timestamp.Some? {
        timestamp := event.timestamp.value;
        if timestamp > limit {
          continue;
        }
      }
      var relative := Since(timestamp, start);
      if event.add.Some? {
        out := out + [PageCacheEvent(bundle.cpu, timestamp, event.pid, relative, true, event.add.value)];
      } else if event.delete.Some? {
        out := out + [PageCacheEvent(bundle.cpu, timestamp, event.pid, relative, false, event.delete.value)];
      }
    }
    assert bundle.events[..|bundle.events|] == bundle.events;
  }

  // A trace with a stamped packet has a start.
  lemma StampedHasStart(trace: Trace, i: nat, start: Option<uint64>)
    requires i < |trace| && trace[i].timestamp.Some? && IsMinimum(start, Stamps(trace))
    ensures start.Some?
  {
    PacketStampCounts(trace, i);
  }

  lemma {:induction false} PacketStampCounts(trace: Trace, i: nat)
    requires i < |trace| && trace[i].timestamp.Some?
    ensures trace[i].timestamp.value in Stamps(trace)
  {
    if i < |trace| - 1 {
      PacketStampCounts(trace[..|trace| - 1], i);
    }
  }

  /// What selection means when every event carries its timestamp.

  // An event with the processor its bundle names.
  datatype Tagged = Tagged(cpu: uint32, event: FtraceEvent)

  function Tag(cpu: uint32, events: seq<FtraceEvent>): seq<Tagged> {
    seq(|events|, i requires 0 <= i < |events| => Tagged(cpu, events[i]))
  }

  // All events of a trace in order.
  function Flat(trace: Trace): seq<Tagged> {
    if trace == [] then [] else
    var last := trace[|trace| - 1];
    Flat(trace[..|trace| - 1]) + if last.bundle.Some? then Tag(last.bundle.value.cpu, last.bundle.value.events) else []
  }

  predicate AllStamped(events: seq<Tagged>) {
    forall t <- events :: t.event.timestamp.Some?
  }

  predicate AllSince(start: uint64, events: seq<Tagged>) {
    forall t <- events :: t.event.timestamp.Some? && start <= t.event.timestamp.value
  }

  function ChooseOne(start: uint64, limit: uint64, t: Tagged): seq<PageCacheEvent> {
    if Selects(t.event) && t.event.timestamp.Some? && start <= t.event.timestamp.value <= limit then
      [Emit(t.event.timestamp.value, t.event.timestamp.value - start, t.cpu, t.event)]
    else []
  }

  // The add and delete events from the start up to the limit, with their distance from the start.
  function Chosen(start: uint64, limit: uint64, events: seq<Tagged>): seq<PageCacheEvent> {
    if events == [] then []
    else Chosen(start, limit, events[..|events| - 1]) + ChooseOne(start, limit, events[|events| - 1])
  }

  lemma LastChosen(start: uint64, limit: uint64, events: seq<Tagged>)
    requires events != []
    ensures Chosen(start, limit, events) ==
            Chosen(start, limit, events[..|events| - 1]) + ChooseOne(start, limit, events[|events| - 1])
  {
  }

  lemma {:induction false} ChosenAppend(start: uint64, limit: uint64, front: seq<Tagged>, back: seq<Tagged>)
    ensures Chosen(start, limit, front + back) == Chosen(start, limit, front) + Chosen(start, limit, back)
  {
    if back == [] {
      assert front + back == front;
    } else {
      hide Chosen, ChooseOne;
      var all, n := front + back, |back| - 1;
      LastElements(front, back);
      ChosenAppend(start, limit, front, back[..n]);
      LastChosen(start, limit, all);
      LastChosen(start, limit, back);
      Associates(Chosen(start, limit, front), Chosen(start, limit, back[..n]), ChooseOne(start, limit, back[n]));
    }
  }

  lemma LastElements(front: seq<Tagged>, back: seq<Tagged>)
    requires back != []
    ensures var all := front + back;
            all != [] && all[..|all| - 1] == front + back[..|back| - 1] && all[|all| - 1] == back[|back| - 1]
  {
  }

  lemma Associates(a: seq<PageCacheEvent>, b: seq<PageCacheEvent>, c: seq<PageCacheEvent>)
    ensures (a + b) + c == a + (b + c)
  {
  }

  lemma {:induction false} SelectEventsIsChosen(
    s: Selection, start: uint64, cpu: uint32, limit: uint64, events: seq<FtraceEvent>)
    requires AllSince(start, Tag(cpu, events))
    ensures SelectEvents(s, Some(start), cpu, limit, events).out == s.out + Chosen(start, limit, Tag(cpu, events))
  {
    if events != [] {
      var front, tagged := events[..|events| - 1], Tag(cpu, events);
      assert tagged[..|tagged| - 1] == Tag(cpu, front);
      assert tagged[|tagged| - 1] in tagged;
      SelectEventsIsChosen(s, start, cpu, limit, front);
    }
  }

  lemma {:induction false} SelectAllIsChosen(start: uint64, limit: uint64, trace: Trace)
    requires AllSince(start, Flat(trace))
    ensures SelectAll(Some(start), limit, trace).out == Chosen(start, limit, Flat(trace))
  {
    if trace != [] {
      hide Chosen;
      var front, last := trace[..|trace| - 1], trace[|trace| - 1];
      SelectAllIsChosen(start, limit, front);
      if last.bundle.Some? {
        var s := SelectAll(Some(start), limit, front);
        var tagged := Tag(last.bundle.value.cpu, last.bundle.value.events);
        assert forall t <- tagged :: t in Flat(trace);
        SelectEventsIsChosen(s.(timestamp := if last.timestamp.Some? then last.timestamp.value else 0),
                             start, last.bundle.value.cpu, limit, last.bundle.value.events);
        ChosenAppend(start, limit, Flat(front), tagged);
      } else {
        assert Flat(trace) == Flat(front);
      }
    }
  }

  lemma {:induction false} EventStampCounts(events: seq<FtraceEvent>, i: nat)
    requires i < |events| && events[i].timestamp.Some?
    ensures events[i].timestamp.value in EventStamps(events)
  {
    if i < |events| - 1 {
      EventStampCounts(events[..|events| - 1], i);
    }
  }

  lemma {:induction false} FlatStampsCount(trace: Trace)
    ensures forall t <- Flat(trace) :: t.event.timestamp.Some? ==> t.event.timestamp.value in Stamps(trace)
  {
    if trace != [] {
      FlatStampsCount(trace[..|trace| - 1]);
      var events := EventsOf(trace[|trace| - 1]);
      forall i | 0 <= i < |events| && events[i].timestamp.Some?
        ensures events[i].timestamp.value in EventStamps(events)
      {
        EventStampCounts(events, i);
      }
    }
  }

  /**
   When every event carries a timestamp, the selection is exactly the add and delete events stamped
   no later than the limit, in order, each with its true distance from the earliest timestamp in the
   trace: nothing precedes the start, so no subtraction wraps.
   */
  lemma SelectionIsExact(trace: Trace, start: Option<uint64>, limit: uint64)
    requires AllStamped(Flat(trace)) && IsMinimum(start, Stamps(trace))
    ensures start.None? ==> Flat(trace) == [] && SelectAll(start, limit, trace).out == []
    ensures start.Some? ==>
              AllSince(start.value, Flat(trace)) &&
              SelectAll(start, limit, trace).out == Chosen(start.value, limit, Flat(trace))
  {
    FlatStampsCount(trace);
    if start.Some? {
      SelectAllIsChosen(start.value, limit, trace);
    } else {
      EventsAreStamps(trace);
      NothingSelected(limit, trace);
    }
  }

  lemma {:induction false} EventStampCount(cpu: uint32, events: seq<FtraceEvent>)
    requires AllStamped(Tag(cpu, events))
    ensures |EventStamps(events)| == |events|
  {
    if events != [] {
      var front, tagged := events[..|events| - 1], Tag(cpu, events);
      assert tagged == Tag(cpu, front) + [Tagged(cpu, events[|events| - 1])];
      EventStampCount(cpu, front);
    }
  }

  lemma {:induction false} EventsAreStamps(trace: Trace)
    requires AllStamped(Flat(trace))
    ensures |Flat(trace)| <= |Stamps(trace)|
  {
    if trace != [] {
      var front, last := trace[..|trace| - 1], trace[|trace| - 1];
      assert forall t <- Flat(front) :: t in Flat(trace);
      EventsAreStamps(front);
      if last.bundle.Some? {
        var tagged := Tag(last.bundle.value.cpu, last.bundle.value.events);
        assert forall t <- tagged :: t in Flat(trace);
        EventStampCount(last.bundle.value.cpu, last.bundle.value.events);
      }
    }
  }

  lemma {:induction false} NothingSelected(limit: uint64, trace: Trace)
    requires Flat(trace) == []
    ensures SelectAll(None, limit, trace).out == []
  {
    if trace != [] {
      NothingSelected(limit, trace[..|trace| - 1]);
      if trace[|trace| - 1].bundle.Some? {
        var b := trace[|trace| - 1].bundle.value;
        assert |Tag(b.cpu, b.events)| == 0;
      }
    }
  }

  /// Moving all clocks.

  predicate LaterBy(a: Option<uint64>, b: Option<uint64>, k: nat) {
    if a.None? then b.None? else b == Some(a.value + k)
  }

  predicate EventLater(a: FtraceEvent, b: FtraceEvent, k: nat) {
    LaterBy(a.timestamp, b.timestamp, k) && b == a.(timestamp := b.timestamp)
  }

  predicate EventsLater(a: seq<FtraceEvent>, b: seq<FtraceEvent>, k: nat) {
    |a| == |b| && forall i | 0 <= i < |a| :: EventLater(a[i], b[i], k)
  }

  // The same packet at a time `k` later.
  predicate PacketLater(a: Packet, b: Packet, k: nat) {
    LaterBy(a.timestamp, b.timestamp, k) && a.bundle.Some? == b.bundle.Some? &&
    (a.bundle.Some? ==> a.bundle.value.cpu == b.bundle.value.cpu) && EventsLater(EventsOf(a), EventsOf(b), k)
  }

  predicate TraceLater(a: Trace, b: Trace, k: nat) {
    |a| == |b| && forall i | 0 <= i < |a| :: PacketLater(a[i], b[i], k)
  }

  predicate StampsLater(a: seq<uint64>, b: seq<uint64>, k: nat) {
    |a| == |b| && forall i | 0 <= i < |a| :: b[i] == a[i] + k
  }

  predicate FlatLater(a: seq<Tagged>, b: seq<Tagged>, k: nat) {
    |a| == |b| && forall i | 0 <= i < |a| :: a[i].cpu == b[i].cpu && EventLater(a[i].event, b[i].event, k)
  }

  // The same events, with the same distances from the start.
  predicate OutLater(a: seq<PageCacheEvent>, b: seq<PageCacheEvent>, k: nat) {
    |a| == |b| &&
    forall i | 0 <= i < |a| :: b[i].timestamp == a[i].timestamp + k && b[i] == a[i].(timestamp := b[i].timestamp)
  }

  lemma {:induction false} EventStampsLater(a: seq<FtraceEvent>, b: seq<FtraceEvent>, k: nat)
    requires EventsLater(a, b, k)
    ensures StampsLater(EventStamps(a), EventStamps(b), k)
  {
    if a != [] {
      EventStampsLater(a[..|a| - 1], b[..|b| - 1], k);
      assert EventLater(a[|a| - 1], b[|b| - 1], k);
    }
  }

  lemma {:induction false} TraceStampsLater(a: Trace, b: Trace, k: nat)
    requires TraceLater(a, b, k)
    ensures StampsLater(Stamps(a), Stamps(b), k)
  {
    if a != [] {
      hide EventStamps, EventsLater, PacketLater, StampsLater, LaterBy, Stamp;
      var n := |a| - 1;
      assert PacketLater(a[n], b[n], k);
      TraceStampsLater(a[..n], b[..n], k);
      PacketStampsLater(a[n], b[n], k);
      StampsLaterAppend(Stamps(a[..n]), Stamps(b[..n]), Stamp(a[n].timestamp), Stamp(b[n].timestamp), k);
      StampsLaterAppend(Stamps(a[..n]) + Stamp(a[n].timestamp), Stamps(b[..n]) + Stamp(b[n].timestamp),
                        EventStamps(EventsOf(a[n])), EventStamps(EventsOf(b[n])), k);
    } else {
      NoStampsLater(k);
    }
  }

  lemma NoStampsLater(k: nat)
    ensures StampsLater([], [], k)
  {
  }

  lemma PacketStampsLater(a: Packet, b: Packet, k: nat)
    requires PacketLater(a, b, k)
    ensures StampsLater(Stamp(a.timestamp), Stamp(b.timestamp), k)
    ensures StampsLater(EventStamps(EventsOf(a)), EventStamps(EventsOf(b)), k)
  {
    hide EventStamps, EventsLater;
    EventStampsLater(EventsOf(a), EventsOf(b), k);
  }

  lemma StampsLaterAppend(a: seq<uint64>, b: seq<uint64>, c: seq<uint64>, d: seq<uint64>, k: nat)
    requires StampsLater(a, b, k) && StampsLater(c, d, k)
    ensures StampsLater(a + c, b + d, k)
  {
  }

  lemma {:induction false} FlatIsLater(a: Trace, b: Trace, k: nat)
    requires TraceLater(a, b, k)
    ensures FlatLater(Flat(a), Flat(b), k)
  {
    if a != [] {
      hide EventLater;
      assert PacketLater(a[|a| - 1], b[|b| - 1], k);
      FlatIsLater(a[..|a| - 1], b[..|b| - 1], k);
    }
  }

  lemma StartLater(a: Option<uint64>, b: Option<uint64>, x: seq<uint64>, y: seq<uint64>, k: nat)
    requires IsMinimum(a, x) && IsMinimum(b, y) && StampsLater(x, y, k)
    ensures LaterBy(a, b, k)
  {
    if x != [] {
      var i :| 0 <= i < |x| && x[i] == a.value;
      var j :| 0 <= j < |y| && y[j] == b.value;
      assert y[i] in y && x[j] in x;
    }
  }

  lemma {:induction false} ChosenLater(start: uint64, limit: uint64, a: seq<Tagged>, b: seq<Tagged>, k: nat)
    requires FlatLater(a, b, k) && start + k < 0x1_0000_0000_0000_0000 && limit + k < 0x1_0000_0000_0000_0000
    ensures OutLater(Chosen(start, limit, a), Chosen(start + k, limit + k, b), k)
  {
    if a != [] {
      ChosenLater(start, limit, a[..|a| - 1], b[..|b| - 1], k);
      assert EventLater(a[|a| - 1].event, b[|b| - 1].event, k);
    }
  }

  /**
   Where the clock starts does not matter: adding a constant to every timestamp and to the limit,
   short of overflow, selects the same events with the same distances from the start.
   */
  lemma ClockOffsetIsIrrelevant(
    a: Trace, b: Trace, k: nat, startA: Option<uint64>, startB: Option<uint64>, limit: uint64)
    requires AllStamped(Flat(a)) && TraceLater(a, b, k) && limit + k < 0x1_0000_0000_0000_0000
    requires IsMinimum(startA, Stamps(a)) && IsMinimum(startB, Stamps(b))
    ensures OutLater(SelectAll(startA, limit, a).out, SelectAll(startB, limit + k, b).out, k)
  {
    hide TraceLater, IsMinimum, Flat, Stamps;
    FlatIsLater(a, b, k);
    LaterIsStamped(Flat(a), Flat(b), k);
    TraceStampsLater(a, b, k);
    StartLater(startA, startB, Stamps(a), Stamps(b), k);
    SelectionIsExact(a, startA, limit);
    SelectionIsExact(b, startB, limit + k);
    if startA.Some? {
      ChosenLater(startA.value, limit, Flat(a), Flat(b), k);
    }
  }

  lemma LaterIsStamped(a: seq<Tagged>, b: seq<Tagged>, k: nat)
    requires AllStamped(a) && FlatLater(a, b, k)
    ensures AllStamped(b)
  {
    forall t <- b ensures t.event.timestamp.Some? {
      var i :| 0 <= i < |b| && b[i] == t;
      assert a[i] in a && EventLater(a[i].event, b[i].event, k);
    }
  }
}
