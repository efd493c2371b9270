/**
 Which event of a trace stands behind each event that is selected, and what every field of it holds;
 for every trace, said of the trace alone.
 */
module SelectedEvents {
  import opened Wrappers
  import opened Bytes
  import opened PageCacheTraces
  import opened TraceClocks

  /// The start.

  predicate EventStamped(events: seq<FtraceEvent>, t: uint64) {
    exists event <- events :: event.timestamp == Some(t)
  }

  predicate PacketStamped(packet: Packet, t: uint64) {
    packet.timestamp == Some(t) || (packet.bundle.Some? && EventStamped(packet.bundle.value.events, t))
  }

  // Some packet of the trace, or some event in it, has this timestamp.
  predicate Stamped(trace: Trace, t: uint64) {
    exists packet <- trace :: PacketStamped(packet, t)
  }

  lemma {:induction false} EventStampsAreStamps(events: seq<FtraceEvent>, t: uint64)
    ensures t in EventStamps(events) <==> EventStamped(events, t)
  {
    if events != [] {
      var front, last := events[..|events| - 1], events[|events| - 1];
      EventStampsAreStamps(front, t);
      assert events == front + [last];
    }
  }

  lemma OneMorePacket(front: Trace, last: Packet, t: uint64)
    ensures Stamped(front + [last], t) <==> Stamped(front, t) || PacketStamped(last, t)
  {
    hide PacketStamped;
    if Stamped(front, t) {
      var packet :| packet in front && PacketStamped(packet, t);
      assert packet in front + [last];
    }
    assert last in front + [last];
  }

  lemma PacketStampsAreStamps(packet: Packet, t: uint64)
    ensures t in Stamp(packet.timestamp) || t in EventStamps(EventsOf(packet)) <==> PacketStamped(packet, t)
  {
    hide EventStamps;
    EventStampsAreStamps(EventsOf(packet), t);
  }

  lemma {:induction false} StampsAreStamps(trace: Trace, t: uint64)
    ensures t in Stamps(trace) <==> Stamped(trace, t)
  {
    if trace != [] {
      hide EventStamps, EventsOf, Stamp, PacketStamped, Stamped;
      var front, last := trace[..|trace| - 1], trace[|trace| - 1];
      StampsAreStamps(front, t);
      PacketStampsAreStamps(last, t);
      OneMorePacket(front, last, t);
      assert trace == front + [last];
    }
  }

  // A trace starts at the earliest timestamp of a packet or an event, and has no start without one.
  lemma StartIsEarliest(trace: Trace, start: Option<uint64>)
    requires IsMinimum(start, Stamps(trace))
    ensures start.None? <==> forall t :: !Stamped(trace, t)
    ensures start.Some? ==> Stamped(trace, start.value) && forall t :: Stamped(trace, t) ==> start.value <= t
  {
    hide Stamps, Stamped;
    forall t ensures t in Stamps(trace) <==> Stamped(trace, t) {
      StampsAreStamps(trace, t);
    }
    if Stamps(trace) != [] {
      assert Stamps(trace)[0] in Stamps(trace);
    }
  }

  /// The events that pass.

  // An event of a trace: the j-th of the i-th packet.
  datatype Position = Position(packet: nat, event: nat)

  predicate IsIn(p: Position, trace: Trace) {
    p.packet < |trace| && trace[p.packet].bundle.Some? && p.event < |trace[p.packet].bundle.value.events|
  }

  function At(p: Position, trace: Trace): FtraceEvent
    requires IsIn(p, trace)
  {
    trace[p.packet].bundle.value.events[p.event]
  }

  predicate Precedes(p: Position, q: Position) {
    p.packet < q.packet || (p.packet == q.packet && p.event < q.event)
  }

  // It adds or deletes a page, and is not stamped past the limit.
  predicate IsWanted(event: FtraceEvent, limit: uint64) {
    (event.add.Some? || event.delete.Some?) && (event.timestamp.Some? ==> event.timestamp.value <= limit)
  }

  function PassingIn(limit: uint64, i: nat, events: seq<FtraceEvent>): seq<Position> {
    if events == [] then [] else
    var n := |events| - 1;
    PassingIn(limit, i, events[..n]) + if IsWanted(events[n], limit) then [Position(i, n)] else []
  }

  function Passing(limit: uint64, trace: Trace): seq<Position> {
    if trace == [] then [] else
    var n := |trace| - 1;
    Passing(limit, trace[..n]) + PassingIn(limit, n, EventsOf(trace[n]))
  }

  predicate Ascending(s: seq<Position>) {
    forall k, l | 0 <= k < l < |s| :: Precedes(s[k], s[l])
  }

  lemma AscendingAppend(a: seq<Position>, b: seq<Position>)
    requires Ascending(a) && Ascending(b) && forall p <- a, q <- b :: Precedes(p, q)
    ensures Ascending(a + b)
  {
    hide Precedes;
  }

  lemma {:induction false} PassingInIsExact(limit: uint64, i: nat, events: seq<FtraceEvent>)
    ensures Ascending(PassingIn(limit, i, events))
    ensures forall p: Position :: p in PassingIn(limit, i, events) <==>
              p.packet == i && p.event < |events| && IsWanted(events[p.event], limit)
  {
    if events != [] {
      hide IsWanted, Ascending;
      var n := |events| - 1;
      var front, last := PassingIn(limit, i, events[..n]), if IsWanted(events[n], limit) then [Position(i, n)] else [];
      PassingInIsExact(limit, i, events[..n]);
      OneAscends(last);
      AscendingAppend(front, last);
      assert forall p: Position :: p in front + last <==> p in front || p in last;
    }
  }

  lemma OneAscends(s: seq<Position>)
    requires |s| <= 1
    ensures Ascending(s)
  {
  }

  // They are the wanted events of the trace, all of them, in the order of the trace.
  lemma {:induction false} PassingIsExact(limit: uint64, trace: Trace)
    ensures Ascending(Passing(limit, trace))
    ensures forall p: Position :: p in Passing(limit, trace) <==> IsIn(p, trace) && IsWanted(At(p, trace), limit)
  {
    if trace != [] {
      hide IsWanted, PassingIn;
      var n := |trace| - 1;
      PassingIsExact(limit, trace[..n]);
      PassingInIsExact(limit, n, EventsOf(trace[n]));
      AscendingAppend(Passing(limit, trace[..n]), PassingIn(limit, n, EventsOf(trace[n])));
    }
  }

  /// What each of them becomes.

  // The time an event goes by: the last stamp up to it in its packet, or else the one of the packet, or else zero.
  predicate GoesBy(packet: Packet, events: seq<FtraceEvent>, t: uint64) {
    || (exists i | 0 <= i < |events| :: events[i].timestamp == Some(t) && NoneFrom(events, i + 1))
    || (NoneFrom(events, 0) && t == if packet.timestamp.Some? then packet.timestamp.value else 0)
  }

  predicate NoneFrom(events: seq<FtraceEvent>, i: nat) {
    forall k | i <= k < |events| :: events[k].timestamp.None?
  }

  lemma {:induction false} LastStampIsTheTime(packet: Packet, events: seq<FtraceEvent>)
    ensures GoesBy(packet, events, OrZero(LastStamp(packet.timestamp, events)))
  {
    if events != [] {
      var n := |events| - 1;
      LastStampIsTheTime(packet, events[..n]);
      if events[n].timestamp.Some? {
        assert NoneFrom(events, n + 1);
      } else {
        var t := OrZero(LastStamp(packet.timestamp, events[..n]));
        if !NoneFrom(events[..n], 0) {
          var i :| 0 <= i < n && events[..n][i].timestamp == Some(t) && NoneFrom(events[..n], i + 1);
          assert events[i].timestamp == Some(t) && NoneFrom(events, i + 1);
        }
      }
    }
  }

  // What the event at a position comes out as.
  predicate Reports(start: Option<uint64>, trace: Trace, p: Position, e: PageCacheEvent) {
    && IsIn(p, trace)
    && var bundle, event := trace[p.packet].bundle.value, At(p, trace);
    && e.cpu == bundle.cpu && e.pid == event.pid
    && (e.addToPageCache <==> event.add.Some?)
    && (event.add.Some? ==> event.add == Some(e.mm))
    && (event.add.None? ==> event.delete == Some(e.mm))
    && GoesBy(trace[p.packet], bundle.events[..p.event + 1], e.timestamp)
    && e.timestampRelative == if start.None? then 0 else (e.timestamp - start.value) % 0x1_0000_0000_0000_0000
  }

  predicate AllReport(start: Option<uint64>, trace: Trace, positions: seq<Position>, out: seq<PageCacheEvent>) {
    |out| == |positions| && forall k | 0 <= k < |out| :: Reports(start, trace, positions[k], out[k])
  }

  lemma EmittedReports(start: Option<uint64>, trace: Trace, p: Position)
    requires IsIn(p, trace) && Selects(At(p, trace))
    ensures Reports(start, trace, p, Emitted(start, trace[p.packet], p.event))
  {
    hide LastStamp, GoesBy;
    var packet := trace[p.packet];
    LastStampIsTheTime(packet, EventsOf(packet)[..p.event + 1]);
  }

  // One event, at the clock reached before it.
  lemma EventReported(
    s: Selection, start: Option<uint64>, limit: uint64, trace: Trace, positions: seq<Position>, i: nat, j: nat)
    requires IsIn(Position(i, j), trace) && AllReport(start, trace, positions, s.out)
    requires s.timestamp == OrZero(LastStamp(trace[i].timestamp, EventsOf(trace[i])[..j]))
    ensures var s' := SelectEvent(s, start, trace[i].bundle.value.cpu, limit, EventsOf(trace[i])[j]);
            s'.timestamp == OrZero(LastStamp(trace[i].timestamp, EventsOf(trace[i])[..j + 1])) &&
            AllReport(start, trace,
                      positions + if IsWanted(EventsOf(trace[i])[j], limit) then [Position(i, j)] else [], s'.out)
  {
    hide Since, LastStamp, Reports;
    NextStamp(trace[i].timestamp, EventsOf(trace[i]), j);
    if IsWanted(EventsOf(trace[i])[j], limit) {
      EmittedReports(start, trace, Position(i, j));
    }
  }

  // The first events of a packet.
  lemma {:induction false} EventsReported(
    s: Selection, start: Option<uint64>, limit: uint64, trace: Trace, positions: seq<Position>, i: nat, n: nat)
    requires i < |trace| && trace[i].bundle.Some? && n <= |EventsOf(trace[i])|
    requires AllReport(start, trace, positions, s.out) && s.timestamp == OrZero(trace[i].timestamp)
    ensures var events := EventsOf(trace[i])[..n];
            var s' := SelectEvents(s, start, trace[i].bundle.value.cpu, limit, events);
            s'.timestamp == OrZero(LastStamp(trace[i].timestamp, events)) &&
            AllReport(start, trace, positions + PassingIn(limit, i, events), s'.out)
  {
    hide AllReport, SelectEvent, IsWanted;
    if n > 0 {
      var events := EventsOf(trace[i]);
      EventsReported(s, start, limit, trace, positions, i, n - 1);
      assert events[..n][..n - 1] == events[..n - 1] && events[..n][n - 1] == events[n - 1];
      var before := SelectEvents(s, start, trace[i].bundle.value.cpu, limit, events[..n - 1]);
      EventReported(before, start, limit, trace, positions + PassingIn(limit, i, events[..n - 1]), i, n - 1);
      assert positions + PassingIn(limit, i, events[..n - 1]) +
             (if IsWanted(events[n - 1], limit) then [Position(i, n - 1)] else []) ==
             positions + PassingIn(limit, i, events[..n]);
    } else {
      assert positions + [] == positions;
    }
  }

  // One packet.
  lemma PacketReported(
    s: Selection, start: Option<uint64>, limit: uint64, trace: Trace, positions: seq<Position>, i: nat)
    requires i < |trace| && AllReport(start, trace, positions, s.out)
    ensures AllReport(start, trace, positions + PassingIn(limit, i, EventsOf(trace[i])),
                      SelectPacket(s, start, limit, trace[i]).out)
  {
    hide AllReport, SelectEvents;
    if trace[i].bundle.Some? {
      var n := |EventsOf(trace[i])|;
      EventsReported(s.(timestamp := OrZero(trace[i].timestamp)), start, limit, trace, positions, i, n);
      assert EventsOf(trace[i])[..n] == EventsOf(trace[i]);
    } else {
      assert positions + [] == positions;
    }
  }

  lemma {:induction false} PacketsReported(start: Option<uint64>, limit: uint64, trace: Trace, n: nat)
    requires n <= |trace|
    ensures AllReport(start, trace, Passing(limit, trace[..n]), SelectAll(start, limit, trace[..n]).out)
  {
    if n > 0 {
      hide AllReport, SelectPacket, PassingIn;
      PacketsReported(start, limit, trace, n - 1);
      assert trace[..n][..n - 1] == trace[..n - 1] && trace[..n][n - 1] == trace[n - 1];
      PacketReported(SelectAll(start, limit, trace[..n - 1]), start, limit, trace, Passing(limit, trace[..n - 1]), n - 1);
    }
  }

  /**
   The k-th event that comes out is the k-th add or delete event of the trace that is not stamped past the
   limit, with its processor, process and payload, an add exactly when it has one.
   */
  lemma OutputFields(start: Option<uint64>, limit: uint64, trace: Trace)
    ensures AllReport(start, trace, Passing(limit, trace), SelectAll(start, limit, trace).out)
  {
    PacketsReported(start, limit, trace, |trace|);
    assert trace[..|trace|] == trace;
  }
}
