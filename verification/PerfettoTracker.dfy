/** The perfetto consumer's bookkeeping: which handles exist, and the trace span each of them opens and closes. */
module PerfettoTracker {
  import opened Wrappers

  type Handle = int

  datatype StateKind = Uncreated | Created | StartedTracing | ReadTracing | TimedOutDestroyed | Destroyed

  datatype Description = Description(
    kind: StateKind, startedTracingNs: Option<nat>, readTraceNs: Option<nat>, lastTransitionNs: nat,
    traceCookie: Option<nat>, traceEnded: bool)

  // The asynchronous trace spans begun, each with the handle reported beside it, and ended.
  datatype Span = Begin(cookie: nat, handle: Handle) | End(cookie: nat)

  /**
   `crashed` says that a CHECK has failed, after which nothing runs. Handles and cookies are unbounded
   here, as the source assumes its 64-bit counters never wrap.
   */
  datatype Tracker = Tracker(
    states: map<Handle, Description>, lastCreated: Handle, lastDestroyed: Handle, traceCookie: nat,
    spans: seq<Span>, crashed: bool)

  const EMPTY := Tracker(map[], 0, 0, 0, [], false)
  const NEW_HANDLE := Description(Uncreated, None, None, 0, None, false)

  // UpdateHandleDescription: the description, and the tracker with its cookie and spans brought up to date.
  function Update(t: Tracker, handle: Handle, d: Description, kind: StateKind, now: nat): (Tracker, Description) {
    var d := d.(kind := kind, lastTransitionNs := now);
    if kind == StartedTracing && d.startedTracingNs.None? then
      var cookie := t.traceCookie + 1;
      (t.(traceCookie := cookie, spans := t.spans + [Begin(cookie, handle)]),
       d.(startedTracingNs := Some(now), traceCookie := Some(cookie)))
    else if (kind == ReadTracing && d.readTraceNs.None?) || kind == Destroyed then
      var read := if kind == ReadTracing then Some(now) else d.readTraceNs;
      if d.traceCookie.Some? && !d.traceEnded then
        (t.(spans := t.spans + [End(d.traceCookie.value)]), d.(readTraceNs := read, traceEnded := true))
      else (t, d.(readTraceNs := read))
    else (t, d)
  }

  datatype Call =
    | Create(rawHandle: Handle)
    | StartTracing(handle: Handle)
    | ReadTrace(handle: Handle)
    | Destroy(handle: Handle)

  // One call, made at time `now`; for Create, `rawHandle` is what the perfetto library returned.
  function Apply(t: Tracker, call: Call, now: nat): Tracker {
    if t.crashed then t else
    match call
    case Create(rawHandle) =>
      var t := t.(lastCreated := t.lastCreated + 1);
      if rawHandle != t.lastCreated then t.(crashed := true) else
      var (t, d) := Update(t, rawHandle, NEW_HANDLE, Created, now);
      if rawHandle in t.states then t.(crashed := true) else t.(states := t.states[rawHandle := d])
    case StartTracing(handle) =>
      if handle !in t.states then t else
      var (t, d) := Update(t, handle, t.states[handle], StartedTracing, now);
      t.(states := t.states[handle := d], crashed := handle > 0x7fff_ffff)
    case ReadTrace(handle) =>
      if handle !in t.states then t else
      var (t, d) := Update(t, handle, t.states[handle], ReadTracing, now);
      t.(states := t.states[handle := d])
    case Destroy(handle) =>
      if handle !in t.states then t else
      var (t, _) := Update(t, handle, t.states[handle], Destroyed, now);
      t.(lastDestroyed := handle, states := t.states - {handle})
  }

  function Run(calls: seq<(Call, nat)>): Tracker {
    if calls == [] then EMPTY
    else Apply(Run(calls[..|calls| - 1]), calls[|calls| - 1].0, calls[|calls| - 1].1)
  }

  lemma OneMoreCall(calls: seq<(Call, nat)>, call: Call, now: nat)
    ensures Run(calls + [(call, now)]) == Apply(Run(calls), call, now)
  {
    hide Apply;
    assert (calls + [(call, now)])[..|calls|] == calls;
  }

  class PerfettoConsumer {
    var states: map<Handle, Description>
    var lastCreated: Handle
    var lastDestroyed: Handle
    var traceCookie: nat
    var crashed: bool
    ghost var spans: seq<Span>
    ghost var calls: seq<(Call, nat)>

    // The books are those of the run over the calls made so far.
    ghost predicate Valid()
      reads this
    {
      View() == Run(calls)
    }

    ghost function View(): Tracker
      reads this
    {
      Tracker(states, lastCreated, lastDestroyed, traceCookie, spans, crashed)
    }

    constructor ()
      ensures Valid() && calls == []
    {
      states, lastCreated, lastDestroyed, traceCookie, crashed, spans, calls := map[], 0, 0, 0, false, [], [];
    }

    method UpdateHandleDescription(handle: Handle, before: Description, kind: StateKind, now: nat)
      returns (d: Description)
      modifies this`traceCookie, this`spans
      ensures (View(), d) == Update(old(View()), handle, before, kind, now)
    {
      d := before.(kind := kind);
      d := d.(lastTransitionNs := now);
      if kind == StartedTracing {
        if d.startedTracingNs.None? {
          d := d.(startedTracingNs := Some(now));
          traceCookie := traceCookie + 1;
          d := d.(traceCookie := Some(traceCookie));
          spans := spans + [Begin(traceCookie, handle)];
        }
      }
      if kind == ReadTracing {
        if d.readTraceNs.None? {
          d := d.(readTraceNs := Some(now));
          if d.traceCookie.Some? && !d.traceEnded {
            spans := spans + [End(d.traceCookie.value)];
            d := d.(traceEnded := true);
          }
        }
      }
      if kind == Destroyed && d.traceCookie.Some? && !d.traceEnded {
        spans := spans + [End(d.traceCookie.value)];
        d := d.(traceEnded := true);
      }
    }

    method CreateHandle(rawHandle: Handle, now: nat)
      requires Valid() && !crashed
      modifies this
      ensures Valid() && calls == old(calls) + [(Create(rawHandle), now)]
    {
      hide Run;
      OneMoreCall(calls, Create(rawHandle), now);
      calls := calls + [(Create(rawHandle), now)];
      lastCreated := lastCreated + 1;
      if lastCreated != rawHandle {
        crashed := true;
        return;
      }
      var d := UpdateHandleDescription(rawHandle, NEW_HANDLE, Created, now);
      if rawHandle in states {
        crashed := true;
        return;
      }
      states := states[rawHandle := d];
    }

    method BeginTracing(handle: Handle, now: nat)
      requires Valid() && !crashed
      modifies this
      ensures Valid() && calls == old(calls) + [(StartTracing(handle), now)]
    {
      hide Run;
      OneMoreCall(calls, StartTracing(handle), now);
      calls := calls + [(StartTracing(handle), now)];
      if handle !in states {
        return;
      }
      var d := UpdateHandleDescription(handle, states[handle], StartedTracing, now);
      states := states[handle := d];
      if handle > 0x7fff_ffff {
        crashed := true;
      }
    }

    method TakeTrace(handle: Handle, now: nat)
      requires Valid() && !crashed
      modifies this
      ensures Valid() && calls == old(calls) + [(ReadTrace(handle), now)]
    {
      hide Run;
      OneMoreCall(calls, ReadTrace(handle), now);
      calls := calls + [(ReadTrace(handle), now)];
      if handle !in states {
        return;
      }
      var d := UpdateHandleDescription(handle, states[handle], ReadTracing, now);
      states := states[handle := d];
    }

    method TryDestroy(handle: Handle, now: nat) returns (destroyed: bool)
      requires Valid() && !crashed
      modifies this
      ensures Valid() && calls == old(calls) + [(Destroy(handle), now)]
      ensures destroyed <==> handle in old(states)
    {
      hide Run;
      OneMoreCall(calls, Destroy(handle), now);
      calls := calls + [(Destroy(handle), now)];
      if handle !in states {
        return false;
      }
      var _ := UpdateHandleDescription(handle, states[handle], Destroyed, now);
      lastDestroyed := handle;
      states := states - {handle};
      return true;
    }
  }

  /// What the spans amount to, from the spans alone.

  function Begins(spans: seq<Span>): nat {
    if spans == [] then 0 else Begins(spans[..|spans| - 1]) + if spans[|spans| - 1].Begin? then 1 else 0
  }

  function Ends(spans: seq<Span>): nat {
    if spans == [] then 0 else Ends(spans[..|spans| - 1]) + if spans[|spans| - 1].End? then 1 else 0
  }

  // The handles that have ever begun a span.
  function Beginners(spans: seq<Span>): set<Handle> {
    if spans == [] then {}
    else match spans[|spans| - 1]
         case Begin(_, handle) => Beginners(spans[..|spans| - 1]) + {handle}
         case End(_) => Beginners(spans[..|spans| - 1])
  }

  // The spans begun and not ended: from the cookie of each to its handle.
  function Open(spans: seq<Span>): map<nat, Handle> {
    if spans == [] then map[]
    else match spans[|spans| - 1]
         case Begin(cookie, handle) => Open(spans[..|spans| - 1])[cookie := handle]
         case End(cookie) => Open(spans[..|spans| - 1]) - {cookie}
  }

  /**
   The cookies are 1, 2, 3 and so on, so that none is used again; no handle begins a span twice; and a
   span is ended only while it is open, so after it was begun, and once.
   */
  predicate Orderly(spans: seq<Span>) {
    spans == [] ||
    var before := spans[..|spans| - 1];
    Orderly(before) &&
    match spans[|spans| - 1]
    case Begin(cookie, handle) => cookie == Begins(before) + 1 && handle !in Beginners(before)
    case End(cookie) => cookie in Open(before)
  }

  predicate IsOpen(d: Description) {
    d.traceCookie.Some? && !d.traceEnded
  }

  // The tracked handles started and not ended.
  function OpenHandles(states: map<Handle, Description>): set<Handle> {
    set handle | handle in states && IsOpen(states[handle])
  }

  ghost predicate Sound(t: Tracker) {
    && 0 <= t.lastCreated
    && Orderly(t.spans) && Begins(t.spans) == t.traceCookie
    && (forall handle <- t.states :: 1 <= handle <= t.lastCreated)
    && (forall handle <- Beginners(t.spans) :: 1 <= handle <= t.lastCreated)
    && (forall handle <- t.states :: DescriptionFits(t, handle))
    && (forall cookie <- Open(t.spans) :: cookie <= t.traceCookie && OpenFits(t, cookie))
  }

  ghost predicate DescriptionFits(t: Tracker, handle: Handle)
    requires handle in t.states
  {
    var d := t.states[handle];
    && (d.startedTracingNs.Some? <==> d.traceCookie.Some?)
    && (d.traceCookie.None? ==> handle !in Beginners(t.spans))
    && (d.traceEnded ==> d.traceCookie.Some?)
    && (IsOpen(d) ==> d.traceCookie.value in Open(t.spans) && Open(t.spans)[d.traceCookie.value] == handle)
  }

  ghost predicate OpenFits(t: Tracker, cookie: nat)
    requires cookie in Open(t.spans)
  {
    var handle := Open(t.spans)[cookie];
    handle in t.states && IsOpen(t.states[handle]) && t.states[handle].traceCookie == Some(cookie)
  }

  lemma OneMore(spans: seq<Span>, span: Span)
    ensures Begins(spans + [span]) == Begins(spans) + if span.Begin? then 1 else 0
    ensures Beginners(spans + [span]) == Beginners(spans) + if span.Begin? then {span.handle} else {}
    ensures Open(spans + [span]) ==
            if span.Begin? then Open(spans)[span.cookie := span.handle] else Open(spans) - {span.cookie}
    ensures Orderly(spans + [span]) <==>
            Orderly(spans) && if span.Begin? then span.cookie == Begins(spans) + 1 && span.handle !in Beginners(spans)
                              else span.cookie in Open(spans)
  {
    assert (spans + [span])[..|spans|] == spans;
  }

  lemma SoundBegin(t: Tracker, handle: Handle, now: nat)
    requires Sound(t) && handle in t.states
    ensures var (t', d) := Update(t, handle, t.states[handle], StartedTracing, now);
            Sound(t'.(states := t'.states[handle := d]))
  {
    hide Orderly, Begins, Beginners, Open;
    OneMore(t.spans, Begin(t.traceCookie + 1, handle));
    var (t', d) := Update(t, handle, t.states[handle], StartedTracing, now);
    var t2 := t'.(states := t'.states[handle := d]);
    assert DescriptionFits(t, handle);
    forall c <- Open(t2.spans) | Open(t2.spans)[c] == handle ensures OpenFits(t2, c) {
      assert c in Open(t.spans) ==> OpenFits(t, c);
    }
    StillFits(t, t2, handle);
  }

  // A change to one handle and the span of that handle leaves everything else fitting.
  lemma StillFits(t: Tracker, t2: Tracker, handle: Handle)
    requires Sound(t) && handle in t.states && handle in t2.states
    requires t2.states == t.states[handle := t2.states[handle]] && t2.traceCookie >= t.traceCookie
    requires Beginners(t2.spans) <= Beginners(t.spans) + {handle}
    requires forall c <- Open(t2.spans) :: c <= t2.traceCookie
    requires forall c <- Open(t2.spans) | Open(t2.spans)[c] != handle :: c in Open(t.spans) && Open(t.spans)[c] == Open(t2.spans)[c]
    requires forall c <- Open(t.spans) | Open(t.spans)[c] != handle :: c in Open(t2.spans) && Open(t.spans)[c] == Open(t2.spans)[c]
    requires forall c <- Open(t2.spans) | Open(t2.spans)[c] == handle :: OpenFits(t2, c)
    requires DescriptionFits(t2, handle)
    ensures forall h <- t2.states :: DescriptionFits(t2, h)
    ensures forall c <- Open(t2.spans) :: OpenFits(t2, c)
  {
    hide Orderly, Begins, Beginners, Open;
    forall h <- t2.states ensures DescriptionFits(t2, h) {
      assert h in t.states && DescriptionFits(t, h);
    }
    forall c <- Open(t2.spans) ensures OpenFits(t2, c) {
      if Open(t2.spans)[c] != handle {
        assert OpenFits(t, c);
      }
    }
  }

  lemma SoundEnd(t: Tracker, handle: Handle, kind: StateKind, now: nat)
    requires Sound(t) && handle in t.states && (kind == ReadTracing || kind == Destroyed)
    ensures var (t', d) := Update(t, handle, t.states[handle], kind, now);
            Sound(t'.(states := t'.states[handle := d])) && (kind == Destroyed ==> !IsOpen(d))
  {
    hide Orderly, Begins, Beginners, Open;
    var (t', d) := Update(t, handle, t.states[handle], kind, now);
    var t2 := t'.(states := t'.states[handle := d]);
    assert DescriptionFits(t, handle);
    if IsOpen(t.states[handle]) {
      var cookie := t.states[handle].traceCookie.value;
      OneMore(t.spans, End(cookie));
      if t2.spans == t.spans + [End(cookie)] {
        forall c <- Open(t2.spans) ensures Open(t2.spans)[c] != handle {
          assert OpenFits(t, c);
        }
      } else {
        assert OpenFits(t, cookie);
      }
    }
    forall c <- Open(t2.spans) | Open(t2.spans)[c] == handle ensures OpenFits(t2, c) {
      assert OpenFits(t, c);
    }
    StillFits(t, t2, handle);
  }

  lemma SoundCreate(t: Tracker, now: nat)
    requires Sound(t)
    ensures var handle, d := t.lastCreated + 1, NEW_HANDLE.(kind := Created, lastTransitionNs := now);
            handle !in t.states && Sound(t.(lastCreated := handle, states := t.states[handle := d]))
  {
    hide Orderly, Begins, Beginners, Open;
  }

  lemma SoundForget(t: Tracker, handle: Handle)
    requires Sound(t) && handle in t.states && !IsOpen(t.states[handle])
    ensures Sound(t.(lastDestroyed := handle, states := t.states - {handle}))
  {
    hide Orderly, Begins, Beginners, Open;
  }

  lemma SoundCrash(t: Tracker, lastCreated: Handle, crashed: bool)
    requires Sound(t) && t.lastCreated <= lastCreated
    ensures Sound(t.(lastCreated := lastCreated, crashed := crashed))
  {
    hide Orderly, Begins, Beginners, Open;
  }

  lemma SoundApply(t: Tracker, call: Call, now: nat)
    requires Sound(t)
    ensures Sound(Apply(t, call, now))
  {
    hide Orderly, Begins, Beginners, Open, DescriptionFits, OpenFits, IsOpen;
    if !t.crashed {
      match call
      case Create(_) =>
        SoundCreate(t, now);
        SoundCrash(t, t.lastCreated + 1, true);
      case StartTracing(handle) =>
        if handle in t.states {
          SoundBegin(t, handle, now);
          var (t', d) := Update(t, handle, t.states[handle], StartedTracing, now);
          SoundCrash(t'.(states := t'.states[handle := d]), t'.lastCreated, handle > 0x7fff_ffff);
        }
      case ReadTrace(handle) =>
        if handle in t.states {
          SoundEnd(t, handle, ReadTracing, now);
        }
      case Destroy(handle) =>
        if handle in t.states {
          SoundEnd(t, handle, Destroyed, now);
          var (t', d) := Update(t, handle, t.states[handle], Destroyed, now);
          SoundForget(t'.(states := t'.states[handle := d]), handle);
          assert t'.states[handle := d] - {handle} == t'.states - {handle};
        }
    }
  }

  lemma EmptyIsSound()
    ensures Sound(EMPTY)
  {
  }

  // Every run keeps the books: a crash included, since it changes nothing behind it.
  lemma {:induction false} RunsAreSound(calls: seq<(Call, nat)>)
    ensures Sound(Run(calls))
  {
    hide Apply, Sound;
    if calls == [] {
      EmptyIsSound();
    } else {
      RunsAreSound(calls[..|calls| - 1]);
      SoundApply(Run(calls[..|calls| - 1]), calls[|calls| - 1].0, calls[|calls| - 1].1);
    }
  }

  lemma {:induction false} BeginsMinusEnds(spans: seq<Span>)
    requires Orderly(spans)
    ensures |Open(spans)| == Begins(spans) - Ends(spans)
    ensures forall cookie <- Open(spans) :: cookie <= Begins(spans)
  {
    if spans != [] {
      BeginsMinusEnds(spans[..|spans| - 1]);
    }
  }

  lemma {:induction false} ValuesOfInjective(m: map<nat, Handle>)
    requires forall a, b | a in m && b in m && m[a] == m[b] :: a == b
    ensures |m.Values| == |m|
    decreases |m|
  {
    if m != map[] {
      var a :| a in m;
      var rest := m - {a};
      ValuesOfInjective(rest);
      assert m == rest[a := m[a]];
      assert m[a] !in rest.Values;
      assert m.Values == rest.Values + {m[a]};
    }
  }

  /**
   The balance over every run: tracked handles are among those handed out, cookies count up from 1, every
   handle begins at most one span and every span ends at most once and only when open, and the spans
   begun and not ended are those of the tracked handles that were started and not ended.
   */
  lemma SpansBalance(calls: seq<(Call, nat)>)
    ensures var t := Run(calls);
            && Orderly(t.spans)
            && Begins(t.spans) == t.traceCookie
            && (forall handle <- t.states :: 1 <= handle <= t.lastCreated)
            && Open(t.spans).Values == OpenHandles(t.states)
            && Begins(t.spans) - Ends(t.spans) == |OpenHandles(t.states)|
  {
    hide Orderly, Begins, Ends, Beginners, Open, Run;
    var t := Run(calls);
    RunsAreSound(calls);
    BeginsMinusEnds(t.spans);
    forall a, b | a in Open(t.spans) && b in Open(t.spans) && Open(t.spans)[a] == Open(t.spans)[b] ensures a == b {
      assert OpenFits(t, a) && OpenFits(t, b);
    }
    ValuesOfInjective(Open(t.spans));
    forall handle ensures handle in Open(t.spans).Values <==> handle in OpenHandles(t.states) {
      if handle in Open(t.spans).Values {
        var cookie :| cookie in Open(t.spans) && Open(t.spans)[cookie] == handle;
        assert OpenFits(t, cookie);
      }
      if handle in OpenHandles(t.states) {
        assert DescriptionFits(t, handle);
      }
    }
  }

  // Destroying a handle closes its span, whatever happened before.
  lemma DestroyClosesItsSpan(calls: seq<(Call, nat)>, handle: Handle, now: nat)
    requires !Run(calls).crashed
    ensures var t := Run(calls + [(Destroy(handle), now)]);
            handle !in t.states && handle !in Open(t.spans).Values
  {
    hide Orderly, Begins, Ends, Beginners, Open;
    assert (calls + [(Destroy(handle), now)])[..|calls|] == calls;
    SpansBalance(calls + [(Destroy(handle), now)]);
  }

  // Creating crashes exactly when the library's handle is not the next number; the handle is always new.
  lemma CreateCrashesIffOutOfStep(calls: seq<(Call, nat)>, rawHandle: Handle, now: nat)
    requires !Run(calls).crashed
    ensures Apply(Run(calls), Create(rawHandle), now).crashed <==> rawHandle != Run(calls).lastCreated + 1
  {
    hide Run, Orderly, Begins, Beginners, Open;
    RunsAreSound(calls);
  }

  // The first failed check: a new handle out of step, or one that is too large for the trace's int32_t.
  lemma CrashesIff(calls: seq<(Call, nat)>, call: Call, now: nat)
    requires !Run(calls).crashed
    ensures Run(calls + [(call, now)]).crashed <==>
            || (call.Create? && call.rawHandle != Run(calls).lastCreated + 1)
            || (call.StartTracing? && call.handle in Run(calls).states && call.handle > 0x7fff_ffff)
  {
    hide Run, Orderly, Begins, Beginners, Open;
    OneMoreCall(calls, call, now);
    RunsAreSound(calls);
  }

  /// When a handle's span is closed by reading.

  // A call that is carried out for this handle.
  predicate Reaches(t: Tracker, call: Call, wanted: Call, handle: Handle) {
    !t.crashed && handle in t.states && call == wanted
  }

  // The position of the first accepted call of one kind for the handle, if there is one.
  function FirstAccepted(calls: seq<(Call, nat)>, wanted: Call, handle: Handle): Option<nat> {
    if calls == [] then None else
    var n := |calls| - 1;
    var before := FirstAccepted(calls[..n], wanted, handle);
    if before.Some? then before
    else if Reaches(Run(calls[..n]), calls[n].0, wanted, handle) then Some(n)
    else None
  }

  function FirstStart(calls: seq<(Call, nat)>, handle: Handle): Option<nat> {
    FirstAccepted(calls, StartTracing(handle), handle)
  }

  function FirstRead(calls: seq<(Call, nat)>, handle: Handle): Option<nat> {
    FirstAccepted(calls, ReadTrace(handle), handle)
  }

  lemma {:induction false} FirstIsAPosition(calls: seq<(Call, nat)>, wanted: Call, handle: Handle)
    ensures var first := FirstAccepted(calls, wanted, handle); first.Some? ==> first.value < |calls|
  {
    if calls != [] {
      FirstIsAPosition(calls[..|calls| - 1], wanted, handle);
    }
  }

  // Never read, or first read before it was first started.
  predicate StaysOpen(start: Option<nat>, first: Option<nat>) {
    first.None? || (start.Some? && first.value < start.value)
  }

  // What the tracker remembers of a handle, in terms of the calls made.
  ghost predicate Remembers(calls: seq<(Call, nat)>, handle: Handle) {
    var t, start, first := Run(calls), FirstStart(calls, handle), FirstRead(calls, handle);
    (t.lastCreated < handle ==> start.None? && first.None?) &&
    (handle in t.states ==>
       var d := t.states[handle];
       (d.traceCookie.Some? <==> start.Some?) && (d.readTraceNs.Some? <==> first.Some?) &&
       (start.Some? ==> (!d.traceEnded <==> StaysOpen(start, first))))
  }

  lemma RemembersMore(calls: seq<(Call, nat)>, handle: Handle)
    requires calls != [] && Remembers(calls[..|calls| - 1], handle)
    ensures Remembers(calls, handle)
  {
    hide Run, FirstAccepted, Sound;
    var n := |calls| - 1;
    var t, call, now := Run(calls[..n]), calls[n].0, calls[n].1;
    LastCall(calls, handle);
    RunsAreSound(calls[..n]);
    FirstIsAPosition(calls[..n], StartTracing(handle), handle);
    FirstIsAPosition(calls[..n], ReadTrace(handle), handle);
    Facts(t, handle);
  }

  lemma LastCall(calls: seq<(Call, nat)>, handle: Handle)
    requires calls != []
    ensures var n := |calls| - 1; var t := Run(calls[..n]);
            Run(calls) == Apply(t, calls[n].0, calls[n].1) &&
            FirstStart(calls, handle) ==
              (if FirstStart(calls[..n], handle).Some? then FirstStart(calls[..n], handle)
               else if Reaches(t, calls[n].0, StartTracing(handle), handle) then Some(n) else None) &&
            FirstRead(calls, handle) ==
              (if FirstRead(calls[..n], handle).Some? then FirstRead(calls[..n], handle)
               else if Reaches(t, calls[n].0, ReadTrace(handle), handle) then Some(n) else None)
  {
    hide Apply;
  }

  lemma Facts(t: Tracker, handle: Handle)
    requires Sound(t)
    ensures handle in t.states ==>
              handle <= t.lastCreated &&
              (t.states[handle].startedTracingNs.Some? <==> t.states[handle].traceCookie.Some?) &&
              (t.states[handle].traceEnded ==> t.states[handle].traceCookie.Some?)
  {
    hide Orderly, Begins, Beginners, Open;
    if handle in t.states {
      assert DescriptionFits(t, handle);
    }
  }

  lemma {:induction false} AllRemembered(calls: seq<(Call, nat)>, handle: Handle)
    ensures Remembers(calls, handle)
  {
    if calls != [] {
      hide Remembers;
      AllRemembered(calls[..|calls| - 1], handle);
      RemembersMore(calls, handle);
    }
  }

  /**
   Over every run: the span of a handle that is tracked and was started is still open if and only if the
   handle was never read, or was first read before it was first started. Later reads do not close it.
   */
  lemma OpenIffReadTooEarly(calls: seq<(Call, nat)>, handle: Handle)
    requires handle in Run(calls).states && FirstStart(calls, handle).Some?
    ensures handle in OpenHandles(Run(calls).states) <==>
            StaysOpen(FirstStart(calls, handle), FirstRead(calls, handle))
    ensures handle in Open(Run(calls).spans).Values <==> handle in OpenHandles(Run(calls).states)
  {
    hide Run, FirstAccepted, Orderly, Begins, Beginners, Open;
    AllRemembered(calls, handle);
    SpansBalance(calls);
  }

  // It happens: read, started and read again, and the span is open.
  lemma EarlyReadExample() returns (calls: seq<(Call, nat)>)
    ensures calls == [(Create(1), 0), (ReadTrace(1), 0), (StartTracing(1), 0), (ReadTrace(1), 0)]
    ensures Run(calls).spans == [Begin(1, 1)] && OpenHandles(Run(calls).states) == {1}
  {
    calls := [(Create(1), 0), (ReadTrace(1), 0), (StartTracing(1), 0), (ReadTrace(1), 0)];
    var t1 := Apply(EMPTY, Create(1), 0);
    var t2 := Apply(t1, ReadTrace(1), 0);
    var t3 := Apply(t2, StartTracing(1), 0);
    assert Run(calls[..0]) == EMPTY;
    assert calls[..1][..0] == calls[..0] && Run(calls[..1]) == t1;
    assert calls[..2][..1] == calls[..1] && Run(calls[..2]) == t2;
    assert calls[..3][..2] == calls[..2] && Run(calls[..3]) == t3;
    assert Run(calls) == Apply(t3, ReadTrace(1), 0);
    assert t3.spans == [Begin(1, 1)];
    assert Run(calls).states.Keys == {1};
  }

  /// What the tracker knows about a handle.

  // The call is carried out for this handle.
  predicate Concerns(t: Tracker, call: Call, handle: Handle) {
    !t.crashed &&
    if call.Create? then call.rawHandle == handle == t.lastCreated + 1 else call.handle == handle && handle in t.states
  }

  // The last call carried out for a handle.
  function LastFor(calls: seq<(Call, nat)>, handle: Handle): Option<nat> {
    if calls == [] then None else
    var n := |calls| - 1;
    if Concerns(Run(calls[..n]), calls[n].0, handle) then Some(n) else LastFor(calls[..n], handle)
  }

  function KindAfter(call: Call): StateKind {
    match call
    case Create(_) => Created
    case StartTracing(_) => StartedTracing
    case ReadTrace(_) => ReadTracing
    case Destroy(_) => Destroyed
  }

  function TimeAt(calls: seq<(Call, nat)>, position: Option<nat>): Option<nat> {
    if position.Some? && position.value < |calls| then Some(calls[position.value].1) else None
  }

  // The handle is tracked, as the last call for it and the times of the first start and the first reading say.
  predicate Tracks(t: Tracker, handle: Handle, last: (Call, nat), started: Option<nat>, read: Option<nat>) {
    handle in t.states &&
    var d := t.states[handle];
    d.kind == KindAfter(last.0) && d.lastTransitionNs == last.1 && d.startedTracingNs == started && d.readTraceNs == read
  }

  ghost predicate Known(calls: seq<(Call, nat)>, handle: Handle) {
    var last := LastFor(calls, handle);
    (last.Some? ==> last.value < |calls|) &&
    if last.None? || calls[last.value].0.Destroy? then handle !in Run(calls).states
    else Tracks(Run(calls), handle, calls[last.value],
                TimeAt(calls, FirstStart(calls, handle)), TimeAt(calls, FirstRead(calls, handle)))
  }

  lemma KnownStep(t: Tracker, call: Call, now: nat, handle: Handle)
    requires Sound(t)
    ensures var t' := Apply(t, call, now);
            if !Concerns(t, call, handle) then
              (handle in t'.states <==> handle in t.states) && (handle in t.states ==> t'.states[handle] == t.states[handle])
            else if call.Destroy? then handle !in t'.states
            else if call.Create? then handle !in t.states && Tracks(t', handle, (call, now), None, None)
            else
              var d := t.states[handle];
              Tracks(t', handle, (call, now),
                     if d.startedTracingNs.None? && call.StartTracing? then Some(now) else d.startedTracingNs,
                     if d.readTraceNs.None? && call.ReadTrace? then Some(now) else d.readTraceNs)
  {
    hide Orderly, Begins, Beginners, Open;
  }

  lemma KnownMore(calls: seq<(Call, nat)>, handle: Handle)
    requires calls != [] && Known(calls[..|calls| - 1], handle) && Remembers(calls[..|calls| - 1], handle)
    ensures Known(calls, handle)
  {
    hide Run, FirstAccepted, Sound, Apply, Orderly;
    var n := |calls| - 1;
    var t, call, now := Run(calls[..n]), calls[n].0, calls[n].1;
    LastCall(calls, handle);
    RunsAreSound(calls[..n]);
    FirstIsAPosition(calls[..n], StartTracing(handle), handle);
    FirstIsAPosition(calls[..n], ReadTrace(handle), handle);
    KnownStep(t, call, now, handle);
  }

  /**
   Over every run a handle is tracked exactly when a call was carried out for it and the last one was not its
   destruction; then its state is that of the last call and its time, and it was started, and read, at the times
   of the first such calls carried out.
   */
  lemma {:induction false} HandlesAreKnown(calls: seq<(Call, nat)>, handle: Handle)
    ensures Known(calls, handle)
  {
    if calls != [] {
      hide Known, Remembers;
      HandlesAreKnown(calls[..|calls| - 1], handle);
      AllRemembered(calls[..|calls| - 1], handle);
      KnownMore(calls, handle);
    }
  }
}
