/**
 What becomes of events without a timestamp of their own: which time they are given, and exactly when
 that breaks the limit on the time and the distance from the start. For every trace.
 */
module TraceClocks {
  import opened Wrappers
  import opened Bytes
  import opened PageCacheTraces

  /// The time of an event, read off the packet alone.

  // The last timestamp among some events, or else the one of their packet.
  function LastStamp(packet: Option<uint64>, events: seq<FtraceEvent>): Option<uint64> {
    if events == [] then packet
    else if events[|events| - 1].timestamp.Some? then events[|events| - 1].timestamp
    else LastStamp(packet, events[..|events| - 1])
  }

  // The time the j-th event of a packet goes by: its own, or the last one before it, or none.
  function TimeOf(packet: Packet, j: nat): Option<uint64>
    requires j < |EventsOf(packet)|
  {
    LastStamp(packet.timestamp, EventsOf(packet)[..j + 1])
  }

  function OrZero(time: Option<uint64>): uint64 {
    if time.Some? then time.value else 0
  }

  // An add or delete event that has to borrow its time.
  predicate Borrows(packet: Packet, j: nat)
    requires j < |EventsOf(packet)|
  {
    Selects(EventsOf(packet)[j]) && EventsOf(packet)[j].timestamp.None?
  }

  // Such an event, or one stamped no later than the limit.
  predicate Passes(limit: uint64, packet: Packet, j: nat)
    requires j < |EventsOf(packet)|
  {
    var event := EventsOf(packet)[j];
    Selects(event) && (event.timestamp.Some? ==> event.timestamp.value <= limit)
  }

  function Emitted(start: Option<uint64>, packet: Packet, j: nat): PageCacheEvent
    requires j < |EventsOf(packet)| && Selects(EventsOf(packet)[j])
  {
    var time := OrZero(TimeOf(packet, j));
    Emit(time, Since(time, start), packet.bundle.value.cpu, EventsOf(packet)[j])
  }

  /// Everything that comes out, in these terms.

  ghost predicate All(q: PageCacheEvent -> bool, out: seq<PageCacheEvent>) {
    forall e <- out :: q(e)
  }

  ghost predicate AllOf(q: PageCacheEvent -> bool, start: Option<uint64>, limit: uint64, packet: Packet, n: nat)
    requires n <= |EventsOf(packet)|
  {
    forall j | 0 <= j < n && Passes(limit, packet, j) :: q(Emitted(start, packet, j))
  }

  lemma AllAppend(q: PageCacheEvent -> bool, front: seq<PageCacheEvent>, last: PageCacheEvent)
    ensures All(q, front + [last]) <==> All(q, front) && q(last)
  {
    assert last in front + [last];
    assert forall e <- front :: e in front + [last];
  }

  lemma NextStamp(packet: Option<uint64>, events: seq<FtraceEvent>, j: nat)
    requires j < |events|
    ensures LastStamp(packet, events[..j + 1]) ==
            if events[j].timestamp.Some? then events[j].timestamp else LastStamp(packet, events[..j])
  {
    assert events[..j + 1][..j] == events[..j];
  }

  lemma NextAll(q: PageCacheEvent -> bool, start: Option<uint64>, limit: uint64, packet: Packet, j: nat)
    requires j < |EventsOf(packet)|
    ensures AllOf(q, start, limit, packet, j + 1) <==>
            AllOf(q, start, limit, packet, j) && (Passes(limit, packet, j) ==> q(Emitted(start, packet, j)))
  {
    hide Passes, Emitted;
  }

  // One event of the loop, at the clock reached before it.
  lemma OneEvent(q: PageCacheEvent -> bool, s: Selection, start: Option<uint64>, limit: uint64, packet: Packet, j: nat)
    requires packet.bundle.Some? && j < |EventsOf(packet)|
    requires s.timestamp == OrZero(LastStamp(packet.timestamp, EventsOf(packet)[..j]))
    ensures var s' := SelectEvent(s, start, packet.bundle.value.cpu, limit, EventsOf(packet)[j]);
            s'.timestamp == OrZero(TimeOf(packet, j)) &&
            (All(q, s'.out) <==> All(q, s.out) && (Passes(limit, packet, j) ==> q(Emitted(start, packet, j))))
  {
    hide All, Since, LastStamp;
    NextStamp(packet.timestamp, EventsOf(packet), j);
    if Passes(limit, packet, j) {
      AllAppend(q, s.out, Emitted(start, packet, j));
    }
  }

  // The first events of a packet: the clock the loop has reached, and what has come out.
  lemma {:induction false} EventsInTurn(
    q: PageCacheEvent -> bool, s: Selection, start: Option<uint64>, limit: uint64, packet: Packet, n: nat)
    requires packet.bundle.Some? && n <= |EventsOf(packet)| && s.timestamp == OrZero(packet.timestamp)
    ensures var s' := SelectEvents(s, start, packet.bundle.value.cpu, limit, EventsOf(packet)[..n]);
            s'.timestamp == OrZero(LastStamp(packet.timestamp, EventsOf(packet)[..n])) &&
            (All(q, s'.out) <==> All(q, s.out) && AllOf(q, start, limit, packet, n))
  {
    hide All, AllOf, SelectEvent, Passes, Emitted;
    if n > 0 {
      var events := EventsOf(packet);
      EventsInTurn(q, s, start, limit, packet, n - 1);
      assert events[..n][..n - 1] == events[..n - 1] && events[..n][n - 1] == events[n - 1];
      var before := SelectEvents(s, start, packet.bundle.value.cpu, limit, events[..n - 1]);
      OneEvent(q, before, start, limit, packet, n - 1);
      NextAll(q, start, limit, packet, n - 1);
    } else {
      NoneYet(q, start, limit, packet);
    }
  }

  lemma NoneYet(q: PageCacheEvent -> bool, start: Option<uint64>, limit: uint64, packet: Packet)
    ensures AllOf(q, start, limit, packet, 0)
  {
  }

  ghost predicate AllOfTrace(q: PageCacheEvent -> bool, start: Option<uint64>, limit: uint64, trace: Trace) {
    forall i | 0 <= i < |trace| :: AllOf(q, start, limit, trace[i], |EventsOf(trace[i])|)
  }

  // A property holds of everything selected from a trace exactly when it holds of each passing event.
  lemma {:induction false} PacketsInTurn(
    q: PageCacheEvent -> bool, start: Option<uint64>, limit: uint64, trace: Trace)
    ensures All(q, SelectAll(start, limit, trace).out) <==> AllOfTrace(q, start, limit, trace)
  {
    if trace != [] {
      hide All, AllOf, SelectEvents;
      var front, last := trace[..|trace| - 1], trace[|trace| - 1];
      PacketsInTurn(q, start, limit, front);
      var s := SelectAll(start, limit, front);
      LastPacket(q, s.(timestamp := OrZero(last.timestamp)), start, limit, last);
      assert trace == front + [last];
    } else {
      assert AllOfTrace(q, start, limit, []);
    }
  }

  lemma LastPacket(q: PageCacheEvent -> bool, s: Selection, start: Option<uint64>, limit: uint64, packet: Packet)
    requires s.timestamp == OrZero(packet.timestamp)
    ensures All(q, SelectPacket(s, start, limit, packet).out) <==>
            All(q, s.out) && AllOf(q, start, limit, packet, |EventsOf(packet)|)
  {
    hide All, SelectEvents;
    if packet.bundle.Some? {
      EventsInTurn(q, s, start, limit, packet, |EventsOf(packet)|);
      assert EventsOf(packet)[..|EventsOf(packet)|] == EventsOf(packet);
    }
  }

  /// The limit.

  // Every event that borrows its time borrows one no later than the limit.
  ghost predicate Within(limit: uint64, trace: Trace) {
    forall i, j | 0 <= i < |trace| && 0 <= j < |EventsOf(trace[i])| && Borrows(trace[i], j) ::
      OrZero(TimeOf(trace[i], j)) <= limit
  }

  /**
   The limit is kept by everything that comes out of a trace if and only if no add or delete event
   without a timestamp follows, in its packet, a time past the limit.
   */
  lemma LimitEscapes(trace: Trace, start: Option<uint64>, limit: uint64)
    ensures (forall e <- SelectAll(start, limit, trace).out :: e.timestamp <= limit) <==> Within(limit, trace)
  {
    hide SelectAll, LastStamp;
    var q := (e: PageCacheEvent) => e.timestamp <= limit;
    PacketsInTurn(q, start, limit, trace);
    if Within(limit, trace) {
      forall i | 0 <= i < |trace| ensures AllOf(q, start, limit, trace[i], |EventsOf(trace[i])|) {
        forall j | 0 <= j < |EventsOf(trace[i])| && Passes(limit, trace[i], j) ensures q(Emitted(start, trace[i], j)) {
          TimeOfEvent(trace[i], j);
        }
      }
    }
    if AllOfTrace(q, start, limit, trace) {
      forall i, j | 0 <= i < |trace| && 0 <= j < |EventsOf(trace[i])| && Borrows(trace[i], j)
        ensures OrZero(TimeOf(trace[i], j)) <= limit
      {
        assert AllOf(q, start, limit, trace[i], |EventsOf(trace[i])|);
        assert Passes(limit, trace[i], j) && q(Emitted(start, trace[i], j));
      }
    }
  }

  // A stamped event goes by its own time; any other by the one before it, or by none.
  lemma TimeOfEvent(packet: Packet, j: nat)
    requires j < |EventsOf(packet)|
    ensures EventsOf(packet)[j].timestamp.Some? ==> TimeOf(packet, j) == EventsOf(packet)[j].timestamp
  {
  }

  /// The distance from the start.

  // Every event that borrows its time finds one to borrow.
  ghost predicate Anchored(trace: Trace) {
    forall i, j | 0 <= i < |trace| && 0 <= j < |EventsOf(trace[i])| && Borrows(trace[i], j) :: TimeOf(trace[i], j).Some?
  }

  predicate TrueDistance(start: uint64, e: PageCacheEvent) {
    e.timestampRelative == e.timestamp - start
  }

  /**
   No relative time wraps around if and only if every add or delete event without a timestamp has one
   before it in its packet, or the trace starts at zero anyway. A wrapped event counts as 2^64 too late.
   */
  lemma DistanceWraps(trace: Trace, start: uint64, limit: uint64)
    requires IsMinimum(Some(start), Stamps(trace))
    ensures (forall e <- SelectAll(Some(start), limit, trace).out :: TrueDistance(start, e)) <==>
            start == 0 || Anchored(trace)
    ensures forall e <- SelectAll(Some(start), limit, trace).out ::
              TrueDistance(start, e) || e.timestampRelative == e.timestamp - start + 0x1_0000_0000_0000_0000
  {
    hide SelectAll, LastStamp, Stamps, IsMinimum;
    var q := (e: PageCacheEvent) => TrueDistance(start, e);
    var any := (e: PageCacheEvent) =>
      TrueDistance(start, e) || e.timestampRelative == e.timestamp - start + 0x1_0000_0000_0000_0000;
    PacketsInTurn(q, Some(start), limit, trace);
    PacketsInTurn(any, Some(start), limit, trace);
    assert AllOfTrace(any, Some(start), limit, trace);
    TimesAreSince(trace, start);
    if start == 0 || Anchored(trace) {
      forall i | 0 <= i < |trace| ensures AllOf(q, Some(start), limit, trace[i], |EventsOf(trace[i])|) {
        forall j | 0 <= j < |EventsOf(trace[i])| && Passes(limit, trace[i], j)
          ensures q(Emitted(Some(start), trace[i], j))
        {
          TimeOfEvent(trace[i], j);
          assert TimeOf(trace[i], j).Some? || Borrows(trace[i], j);
        }
      }
    }
    if AllOfTrace(q, Some(start), limit, trace) && start > 0 {
      forall i, j | 0 <= i < |trace| && 0 <= j < |EventsOf(trace[i])| && Borrows(trace[i], j)
        ensures TimeOf(trace[i], j).Some?
      {
        assert AllOf(q, Some(start), limit, trace[i], |EventsOf(trace[i])|);
        assert Passes(limit, trace[i], j) && q(Emitted(Some(start), trace[i], j));
      }
    }
  }

  // A time that is borrowed is a stamp of the trace, so none precedes the start.
  lemma TimesAreSince(trace: Trace, start: uint64)
    requires IsMinimum(Some(start), Stamps(trace))
    ensures forall i, j | 0 <= i < |trace| && 0 <= j < |EventsOf(trace[i])| ::
              TimeOf(trace[i], j).Some? ==> start <= TimeOf(trace[i], j).value
  {
    hide Stamps, LastStamp;
    forall i, j | 0 <= i < |trace| && 0 <= j < |EventsOf(trace[i])| && TimeOf(trace[i], j).Some?
      ensures start <= TimeOf(trace[i], j).value
    {
      LastStampCounts(trace[i], j + 1);
      StampsOfPacket(trace, i);
    }
  }

  // The stamps of one packet.
  function PacketStamps(packet: Packet): seq<uint64> {
    Stamp(packet.timestamp) + EventStamps(EventsOf(packet))
  }

  lemma {:induction false} LastStampCounts(packet: Packet, n: nat)
    requires n <= |EventsOf(packet)|
    ensures var time := LastStamp(packet.timestamp, EventsOf(packet)[..n]);
            time.Some? ==> time.value in PacketStamps(packet)
  {
    if n > 0 {
      var events := EventsOf(packet);
      assert events[..n][..n - 1] == events[..n - 1] && events[..n][n - 1] == events[n - 1];
      if events[n - 1].timestamp.Some? {
        EventStampCounts(events, n - 1);
      } else {
        LastStampCounts(packet, n - 1);
      }
    }
  }

  lemma {:induction false} StampsOfPacket(trace: Trace, i: nat)
    requires i < |trace|
    ensures forall t <- PacketStamps(trace[i]) :: t in Stamps(trace)
  {
    hide EventStamps;
    if i < |trace| - 1 {
      StampsOfPacket(trace[..|trace| - 1], i);
    }
  }

  // Without a single timestamp there is no start, and every time and every distance is zero.
  lemma NoStampsNoDistance(trace: Trace, limit: uint64)
    requires IsMinimum(None, Stamps(trace))
    ensures forall e <- SelectAll(None, limit, trace).out :: e.timestamp == 0 && e.timestampRelative == 0
  {
    hide SelectAll, LastStamp, Stamps;
    var q := (e: PageCacheEvent) => e.timestamp == 0 && e.timestampRelative == 0;
    PacketsInTurn(q, None, limit, trace);
    forall i | 0 <= i < |trace| ensures AllOf(q, None, limit, trace[i], |EventsOf(trace[i])|) {
      forall j | 0 <= j < |EventsOf(trace[i])| && Passes(limit, trace[i], j) ensures q(Emitted(None, trace[i], j)) {
        LastStampCounts(trace[i], j + 1);
        StampsOfPacket(trace, i);
      }
    }
  }

  /// Both happen.

  const PAGE: MmEvent := MmEvent(0, 0, 0, 0, 0)

  function AddAt(timestamp: Option<uint64>): FtraceEvent {
    FtraceEvent(timestamp, 0, Some(PAGE), None)
  }

  // An event past the limit is skipped, but the next one borrows its time and comes out.
  lemma LimitExample() returns (trace: Trace)
    ensures IsMinimum(Some(10), Stamps(trace))
    ensures exists e <- SelectAll(Some(10), 5, trace).out :: e.timestamp > 5
  {
    var events := [AddAt(Some(10)), AddAt(None)];
    trace := [Packet(None, Some(Bundle(0, events)))];
    assert events[..1] == [AddAt(Some(10))] && events[..1][..0] == [];
    assert EventStamps(events[..1]) == [10] && EventStamps(events) == [10];
    assert trace[..0] == [] && Stamps(trace) == [10];
    assert EventsOf(trace[0])[..2] == events;
    assert Borrows(trace[0], 1) && TimeOf(trace[0], 1) == Some(10);
    LimitEscapes(trace, Some(10), 5);
  }

  // A packet without a timestamp sets the clock to zero, before the start.
  lemma WrapExample() returns (trace: Trace)
    ensures IsMinimum(Some(5), Stamps(trace))
    ensures exists e <- SelectAll(Some(5), 5, trace).out :: e.timestampRelative == 0x1_0000_0000_0000_0000 - 5
  {
    trace := [Packet(Some(5), None), Packet(None, Some(Bundle(0, [AddAt(None)])))];
    assert [AddAt(None)][..0] == [] && EventStamps([AddAt(None)]) == [];
    assert trace[..1] == [Packet(Some(5), None)] && trace[..1][..0] == [];
    assert Stamps(trace[..1]) == [5] && Stamps(trace) == [5];
    var first := SelectAll(Some(5), 5, trace[..1]);
    assert SelectAll(Some(5), 5, []) == Selection(0, []);
    assert first == SelectPacket(Selection(0, []), Some(5), 5, trace[0]) == Selection(5, []);
    var last := SelectEvents(first.(timestamp := 0), Some(5), 0, 5, [AddAt(None)]);
    assert last.out == [Emit(0, 0x1_0000_0000_0000_0000 - 5, 0, AddAt(None))];
    assert SelectAll(Some(5), 5, trace) == last;
    assert last.out[0] in SelectAll(Some(5), 5, trace).out;
  }
}
