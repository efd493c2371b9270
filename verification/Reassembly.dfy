/**
 Reassembling commands from a byte stream that arrives in arbitrary pieces, and pairing the file
 descriptors that arrive beside it with the commands that need one.
 */
module Reassembly {
  import opened Wrappers
  import opened Bytes
  import opened Codec
  import CommandCodec

  /// What a buffer holds.

  // All whole commands at the front of a buffer, and the bytes left over.
  datatype Drained = Drained(commands: seq<Command>, rest: Text, fatal: bool)

  function Drain(buf: Text): Drained
    decreases |buf|
  {
    match Decode(buf)
    case NeedMore => Drained([], buf, false)
    case Fatal => Drained([], buf, true)
    case Parsed(command, consumed) =>
      var more := Drain(buf[consumed..]);
      more.(commands := [command] + more.commands)
  }

  // One turn of `Drain`, for proofs that keep its definition hidden.
  lemma DrainUnfold(buf: Text)
    ensures var p := Decode(buf);
            Drain(buf) ==
            if p.NeedMore? then Drained([], buf, false)
            else if p.Fatal? then Drained([], buf, true)
            else var more := Drain(buf[p.consumed..]); more.(commands := [p.command] + more.commands)
  {
  }

  function EncodeAll(commands: seq<Command>): Text
    requires forall c <- commands :: Serializable(c)
  {
    if commands == [] then [] else Encode(commands[0]) + EncodeAll(commands[1..])
  }

  predicate Encodable(commands: seq<Command>) {
    forall c <- commands :: Serializable(c) && TextFits(c)
  }

  function WireAll(commands: seq<Command>): seq<Command> {
    seq(|commands|, i requires 0 <= i < |commands| => Wire(commands[i]))
  }

  lemma NothingEncoded()
    ensures EncodeAll([]) == []
  {
  }

  lemma EncodeAllFirst(first: Command, others: seq<Command>)
    requires Serializable(first) && Encodable(others)
    ensures EncodeAll([first] + others) == Encode(first) + EncodeAll(others)
  {
    hide Encode, Serializable, TextFits;
    assert ([first] + others)[1..] == others;
  }

  // Bytes are never lost, invented or reordered: the commands and the remainder spell the buffer.
  lemma {:induction false} DrainConserves(buf: Text)
    ensures var d := Drain(buf); Encodable(d.commands) && EncodeAll(d.commands) + d.rest == buf
    ensures !Drain(buf).fatal ==> Decode(Drain(buf).rest).NeedMore?
    decreases |buf|
  {
    hide Decode, Encode, Drain, EncodeAll, Serializable, TextFits;
    DrainUnfold(buf);
    NothingEncoded();
    var p := Decode(buf);
    if p.Parsed? {
      DecodeSound(buf);
      var later := buf[p.consumed..];
      DrainConserves(later);
      EncodeAllFirst(p.command, Drain(later).commands);
      assert buf == buf[..p.consumed] + later;
      assert Encode(p.command) + EncodeAll(Drain(later).commands) + Drain(later).rest ==
             Encode(p.command) + (EncodeAll(Drain(later).commands) + Drain(later).rest);
    }
  }

  // Draining a longer buffer continues from where draining its front stopped.
  lemma {:induction false} DrainAppend(front: Text, back: Text)
    ensures var d := Drain(front);
            Drain(front + back) ==
            if d.fatal then Drained(d.commands, d.rest + back, true)
            else var more := Drain(d.rest + back); more.(commands := d.commands + more.commands)
    decreases |front|
  {
    hide Decode;
    var p := Decode(front);
    if !p.NeedMore? {
      DecodeExtends(front, back);
    }
    if p.Parsed? {
      DrainAppend(front[p.consumed..], back);
      assert (front + back)[p.consumed..] == front[p.consumed..] + back;
    }
  }

  // A stream of encoded commands drains to those commands, as the wire carries them.
  lemma {:induction false} DrainStream(commands: seq<Command>, tail: Text)
    requires Encodable(commands)
    ensures Drain(EncodeAll(commands) + tail) ==
            var more := Drain(tail); more.(commands := WireAll(commands) + more.commands)
  {
    hide Decode, Encode, Drain, Wire, Serializable, TextFits;
    if commands == [] {
      assert EncodeAll(commands) + tail == tail;
    } else {
      var rest := EncodeAll(commands[1..]) + tail;
      var buf := EncodeAll(commands) + tail;
      assert buf == Encode(commands[0]) + rest;
      RoundTrip(commands[0], rest);
      DrainUnfold(buf);
      assert buf[|Encode(commands[0])|..] == rest;
      DrainStream(commands[1..], tail);
      assert WireAll(commands) == [Wire(commands[0])] + WireAll(commands[1..]);
    }
  }

  /// Reading in pieces.

  // One return from read(2) or recvmsg(2).
  datatype Input = Failed | EndOfFile | Data(bytes: Text, fd: Option<int>)

  function Flatten(pieces: seq<Text>): Text {
    if pieces == [] then [] else Flatten(pieces[..|pieces| - 1]) + pieces[|pieces| - 1]
  }

  /**
   What successive `ParseCommands` calls have returned and kept after the given reads. An unknown
   command kills the daemon before the call it occurs in returns anything.
   */
  function Reassemble(pieces: seq<Text>): Drained {
    if pieces == [] then Drained([], [], false) else
    Extend(Reassemble(pieces[..|pieces| - 1]), pieces[|pieces| - 1])
  }

  function Extend(before: Drained, piece: Text): Drained {
    if before.fatal then before else
    var d := Drain(before.rest + piece);
    if d.fatal then before.(fatal := true) else Drained(before.commands + d.commands, d.rest, false)
  }

  /**
   How the stream is cut does not matter, for any bytes at all: the daemon dies if and only if the
   whole stream holds an unknown command, and otherwise ends with the commands and the remainder
   of the whole stream.
   */
  lemma {:induction false} ChunkingDoesNotMatter(pieces: seq<Text>)
    ensures var r := Reassemble(pieces); var whole := Drain(Flatten(pieces));
            r.fatal == whole.fatal && (if r.fatal then r.commands <= whole.commands else r == whole)
  {
    if pieces != [] {
      var before, last := pieces[..|pieces| - 1], pieces[|pieces| - 1];
      ChunkingDoesNotMatter(before);
      DrainAppend(Flatten(before), last);
    }
  }

  /**
   Reads that deliver the front of a stream of encoded commands deliver some first commands whole
   and keep a proper prefix of the next one; reads that deliver all of it keep nothing.
   */
  lemma StreamIsReassembled(commands: seq<Command>, pieces: seq<Text>) returns (whole: nat)
    requires Encodable(commands) && Flatten(pieces) <= EncodeAll(commands)
    ensures whole <= |commands|
    ensures var r := Reassemble(pieces);
            !r.fatal && r.commands == WireAll(commands[..whole]) &&
            EncodeAll(commands[..whole]) + r.rest == Flatten(pieces) &&
            (whole < |commands| ==> r.rest < Encode(commands[whole])) &&
            (whole == |commands| ==> r.rest == [])
    ensures Flatten(pieces) == EncodeAll(commands) ==> whole == |commands|
  {
    hide Encode;
    ChunkingDoesNotMatter(pieces);
    var tail: Text;
    whole, tail := SplitStream(commands, Flatten(pieces));
    DrainStream(commands[..whole], tail);
    if whole < |commands| {
      ProperPrefixWaits(commands[whole], |tail|);
      assert tail == Encode(commands[whole])[..|tail|];
    }
    assert WireAll(commands[..whole]) + [] == WireAll(commands[..whole]);
  }

  // A front of an encoded stream is some whole commands and a proper prefix of the next one.
  lemma {:induction false} SplitStream(commands: seq<Command>, front: Text) returns (whole: nat, tail: Text)
    requires Encodable(commands) && front <= EncodeAll(commands)
    ensures whole <= |commands| && front == EncodeAll(commands[..whole]) + tail
    ensures if whole < |commands| then tail < Encode(commands[whole]) else tail == []
    ensures front == EncodeAll(commands) ==> whole == |commands|
    decreases commands
  {
    hide Encode;
    if commands == [] {
      return 0, [];
    }
    var image := Encode(commands[0]);
    if |front| < |image| {
      assert commands[..0] == [];
      return 0, front;
    }
    var rest := front[|image|..];
    assert front == image + rest;
    whole, tail := SplitStream(commands[1..], rest);
    assert commands[..whole + 1] == [commands[0]] + commands[1..][..whole];
    whole := whole + 1;
  }

  /// Pairing descriptors.

  // Hands the waiting descriptors, in order, to the commands that need one.
  function Attach(commands: seq<Command>, fds: seq<int>): (seq<Command>, seq<int>) {
    if commands == [] then ([], fds)
    else if RequiresFd(commands[0]) && fds != [] then
      var (more, left) := Attach(commands[1..], fds[1..]);
      ([commands[0].(fd := Some(fds[0]))] + more, left)
    else
      var (more, left) := Attach(commands[1..], fds);
      ([commands[0]] + more, left)
  }

  // One turn of `Attach`, for proofs that keep its definition hidden.
  lemma AttachUnfold(commands: seq<Command>, fds: seq<int>)
    ensures Attach([], fds) == ([], fds)
    ensures commands != [] ==>
              var took := RequiresFd(commands[0]) && fds != [];
              var first := if took then commands[0].(fd := Some(fds[0])) else commands[0];
              var others := Attach(commands[1..], if took then fds[1..] else fds);
              Attach(commands, fds) == ([first] + others.0, others.1)
  {
  }

  // The same turn, on a queue of which the first `off` descriptors are taken.
  lemma AttachTurn(first: Command, others: seq<Command>, fds: seq<int>, off: nat)
    requires off <= |fds|
    ensures var took := RequiresFd(first) && off < |fds|;
            var paired := if took then first.(fd := Some(fds[off])) else first;
            var rest := Attach(others, fds[if took then off + 1 else off..]);
            Attach([first] + others, fds[off..]) == ([paired] + rest.0, rest.1)
  {
    hide Attach, RequiresFd;
    AttachUnfold([first] + others, fds[off..]);
    assert ([first] + others)[1..] == others;
    assert off < |fds| ==> fds[off..][1..] == fds[off + 1..];
  }

  datatype Datagram = Datagram(bytes: Text, fd: Option<int>)

  datatype SocketState = SocketState(commands: seq<Command>, rest: Text, fds: seq<int>, fatal: bool)

  function FdOf(datagram: Datagram): seq<int> {
    if datagram.fd.Some? then [datagram.fd.value] else []
  }

  // What successive `ParseSocketCommands` calls have returned and kept.
  function Receive(datagrams: seq<Datagram>): SocketState {
    if datagrams == [] then SocketState([], [], [], false) else
    Next(Receive(datagrams[..|datagrams| - 1]), datagrams[|datagrams| - 1])
  }

  function Next(before: SocketState, last: Datagram): SocketState {
    if before.fatal then before else
    var d := Drain(before.rest + last.bytes);
    if d.fatal then before.(fatal := true) else
    var (commands, left) := Attach(d.commands, before.fds + FdOf(last));
    SocketState(before.commands + commands, d.rest, left, false)
  }

  function BytesOf(datagrams: seq<Datagram>): seq<Text> {
    seq(|datagrams|, i requires 0 <= i < |datagrams| => datagrams[i].bytes)
  }

  function FdsOf(datagrams: seq<Datagram>): seq<int> {
    if datagrams == [] then [] else FdsOf(datagrams[..|datagrams| - 1]) + FdOf(datagrams[|datagrams| - 1])
  }

  // The descriptors the given commands carry, in order.
  function Attached(commands: seq<Command>): seq<int> {
    if commands == [] then [] else Carried(commands[0]) + Attached(commands[1..])
  }

  function Carried(command: Command): seq<int> {
    if command.fd.Some? then [command.fd.value] else []
  }

  // The commands that need a descriptor, in order.
  function Creations(commands: seq<Command>): seq<Command> {
    if commands == [] then [] else Needing(commands[0]) + Creations(commands[1..])
  }

  function Needing(command: Command): seq<Command> {
    if RequiresFd(command) then [command] else []
  }

  predicate AllPaired(commands: seq<Command>) {
    forall c <- commands :: RequiresFd(c) ==> c.fd.Some?
  }

  function WithoutFds(commands: seq<Command>): seq<Command> {
    seq(|commands|, i requires 0 <= i < |commands| => commands[i].(fd := None))
  }

  predicate Bare(commands: seq<Command>) {
    forall c <- commands :: c.fd.None?
  }

  lemma {:induction false} DrainIsBare(buf: Text)
    ensures Bare(Drain(buf).commands)
    decreases |buf|
  {
    hide U32At, U64At;
    var p := Decode(buf);
    if p.Parsed? {
      DrainIsBare(buf[p.consumed..]);
    }
  }

  lemma {:induction false} AttachConserves(commands: seq<Command>, fds: seq<int>)
    requires Bare(commands)
    ensures Attached(Attach(commands, fds).0) + Attach(commands, fds).1 == fds
  {
    hide Attach, Attached, RequiresFd, Carried, Bare;
    AttachUnfold(commands, fds);
    if commands != [] {
      var took := RequiresFd(commands[0]) && fds != [];
      var first := if took then commands[0].(fd := Some(fds[0])) else commands[0];
      var later := if took then fds[1..] else fds;
      BareRest(commands);
      AttachConserves(commands[1..], later);
      FirstTakes(commands[0], fds);
      var more, left := Attach(commands[1..], later).0, Attach(commands[1..], later).1;
      calc {
        Attached([first] + more) + left;
        { AttachedFirst(first, more); }
        Carried(first) + Attached(more) + left;
        Carried(first) + (Attached(more) + left);
        Carried(first) + later;
        fds;
      }
    } else {
      NoneAttached();
      assert [] + fds == fds;
    }
  }

  lemma BareRest(commands: seq<Command>)
    requires Bare(commands) && commands != []
    ensures commands[0].fd.None? && Bare(commands[1..])
  {
  }

  lemma FirstTakes(command: Command, fds: seq<int>)
    requires command.fd.None?
    ensures var took := RequiresFd(command) && fds != [];
            Carried(if took then command.(fd := Some(fds[0])) else command) + (if took then fds[1..] else fds) == fds
  {
  }

  lemma AttachedFirst(first: Command, more: seq<Command>)
    ensures Attached([first] + more) == Carried(first) + Attached(more)
  {
    assert ([first] + more)[1..] == more;
  }

  lemma NoneAttached()
    ensures Attached([]) == []
  {
  }

  lemma {:induction false} AttachOnlyAddsFds(commands: seq<Command>, fds: seq<int>)
    requires Bare(commands)
    ensures var paired := Attach(commands, fds).0;
            WithoutFds(paired) == commands && |Creations(paired)| == |Creations(commands)| &&
            forall c <- paired :: c.fd.Some? ==> RequiresFd(c)
  {
    hide Attach;
    AttachUnfold(commands, fds);
    if commands != [] {
      var took := RequiresFd(commands[0]) && fds != [];
      var more := Attach(commands[1..], if took then fds[1..] else fds).0;
      AttachOnlyAddsFds(commands[1..], if took then fds[1..] else fds);
      var paired := Attach(commands, fds).0;
      assert paired[1..] == more;
      assert WithoutFds(paired) == [commands[0]] + WithoutFds(more);
    }
  }

  // A batch is fully paired exactly when enough descriptors wait, and takes as many as it needs.
  lemma {:induction false} AttachPairs(commands: seq<Command>, fds: seq<int>)
    requires Bare(commands)
    ensures var (paired, left) := Attach(commands, fds);
            (AllPaired(paired) <==> |Creations(commands)| <= |fds|) &&
            (AllPaired(paired) ==> left == fds[|Creations(commands)|..])
  {
    if commands != [] {
      var paired := Attach(commands, fds).0;
      var took := RequiresFd(commands[0]) && fds != [];
      AttachPairs(commands[1..], if took then fds[1..] else fds);
      assert paired[1..] == Attach(commands[1..], if took then fds[1..] else fds).0;
      assert AllPaired(paired) <==> (RequiresFd(paired[0]) ==> paired[0].fd.Some?) && AllPaired(paired[1..]);
    }
  }

  lemma {:induction false} AttachedAppend(front: seq<Command>, back: seq<Command>)
    ensures Attached(front + back) == Attached(front) + Attached(back)
  {
    hide Carried;
    if front == [] {
      assert front + back == back;
    } else {
      var all := front + back;
      calc {
        Attached(all);
        Carried(all[0]) + Attached(all[1..]);
        { assert all[1..] == front[1..] + back; }
        Carried(front[0]) + Attached(front[1..] + back);
        { AttachedAppend(front[1..], back); }
        Carried(front[0]) + (Attached(front[1..]) + Attached(back));
        Attached(front) + Attached(back);
      }
    }
  }

  lemma {:induction false} CreationsAppend(front: seq<Command>, back: seq<Command>)
    ensures Creations(front + back) == Creations(front) + Creations(back)
  {
    hide Needing;
    if front == [] {
      assert front + back == back;
    } else {
      var all := front + back;
      calc {
        Creations(all);
        Needing(all[0]) + Creations(all[1..]);
        { assert all[1..] == front[1..] + back; }
        Needing(front[0]) + Creations(front[1..] + back);
        { CreationsAppend(front[1..], back); }
        Needing(front[0]) + (Creations(front[1..]) + Creations(back));
        Creations(front) + Creations(back);
      }
    }
  }

  // A socket state agrees with a descriptor-blind one in everything but the descriptors.
  predicate Agree(s: SocketState, r: Drained) {
    s.fatal == r.fatal && WithoutFds(s.commands) == r.commands && s.rest == r.rest &&
    |Creations(s.commands)| == |Creations(r.commands)| &&
    forall c <- s.commands :: c.fd.Some? ==> RequiresFd(c)
  }

  lemma NextAgrees(before: SocketState, r: Drained, last: Datagram)
    requires Agree(before, r)
    ensures Agree(Next(before, last), Extend(r, last.bytes))
  {
    hide Drain, Attach, Creations, RequiresFd;
    var d := Drain(before.rest + last.bytes);
    if !before.fatal && !d.fatal {
      DrainIsBare(before.rest + last.bytes);
      var fds := before.fds + FdOf(last);
      AttachOnlyAddsFds(d.commands, fds);
      var paired := Attach(d.commands, fds).0;
      CreationsAppend(before.commands, paired);
      CreationsAppend(r.commands, d.commands);
      assert WithoutFds(before.commands + paired) == WithoutFds(before.commands) + WithoutFds(paired);
    }
  }

  // The descriptors play no part in parsing.
  lemma {:induction false} DescriptorsDoNotParse(datagrams: seq<Datagram>)
    ensures Agree(Receive(datagrams), Reassemble(BytesOf(datagrams)))
  {
    if datagrams != [] {
      hide Agree, Next, Extend;
      var front, last := datagrams[..|datagrams| - 1], datagrams[|datagrams| - 1];
      DescriptorsDoNotParse(front);
      assert BytesOf(datagrams)[..|datagrams| - 1] == BytesOf(front);
      NextAgrees(Receive(front), Reassemble(BytesOf(front)), last);
    } else {
      assert WithoutFds([]) == [];
    }
  }

  lemma NextConserves(before: SocketState, received: seq<int>, last: Datagram)
    requires !Next(before, last).fatal
    requires Attached(before.commands) + before.fds == received
    ensures var s := Next(before, last); Attached(s.commands) + s.fds == received + FdOf(last)
  {
    hide Drain, Attach, Attached;
    var d := Drain(before.rest + last.bytes);
    var fds := before.fds + FdOf(last);
    var (paired, left) := Attach(d.commands, fds);
    calc {
      Attached(before.commands + paired) + left;
      { AttachedAppend(before.commands, paired); }
      Attached(before.commands) + (Attached(paired) + left);
      { DrainIsBare(before.rest + last.bytes); AttachConserves(d.commands, fds); }
      Attached(before.commands) + fds;
      received + FdOf(last);
    }
  }

  /**
   The descriptor queue is first in, first out and loses nothing: the descriptors attached so far
   followed by those still waiting are those received.
   */
  lemma {:induction false} DescriptorsConserved(datagrams: seq<Datagram>)
    requires !Receive(datagrams).fatal
    ensures var s := Receive(datagrams); Attached(s.commands) + s.fds == FdsOf(datagrams)
  {
    if datagrams != [] {
      var front, last := datagrams[..|datagrams| - 1], datagrams[|datagrams| - 1];
      DescriptorsConserved(front);
      hide Attached, Drain, Attach;
      NextConserves(Receive(front), FdsOf(front), last);
    }
  }

  predicate TimelyAfter(datagrams: seq<Datagram>) {
    |Creations(Reassemble(BytesOf(datagrams)).commands)| <= |FdsOf(datagrams)|
  }

  // After every read, no more descriptors were needed than had arrived.
  predicate Timely(datagrams: seq<Datagram>) {
    forall k | 0 <= k <= |datagrams| :: TimelyAfter(datagrams[..k])
  }

  lemma TimelyLast(datagrams: seq<Datagram>)
    requires datagrams != []
    ensures Timely(datagrams) <==>
            Timely(datagrams[..|datagrams| - 1]) && TimelyAfter(datagrams)
  {
    hide TimelyAfter;
    var n := |datagrams| - 1;
    var front := datagrams[..n];
    assert datagrams[..n + 1] == datagrams;
    if Timely(front) && TimelyAfter(datagrams) {
      forall k | 0 <= k <= n + 1 ensures TimelyAfter(datagrams[..k]) {
        if k <= n {
          assert TimelyAfter(front[..k]) && front[..k] == datagrams[..k];
        }
      }
    }
    if Timely(datagrams) {
      forall k | 0 <= k <= n ensures TimelyAfter(front[..k]) {
        assert TimelyAfter(datagrams[..k]) && front[..k] == datagrams[..k];
      }
      assert TimelyAfter(datagrams[..n + 1]);
    }
  }

  /**
   Every command that needs a descriptor gets one exactly when descriptors arrive in time; then the
   i-th such command carries the i-th descriptor received and the queue holds exactly the others.
   */
  lemma PairingIsInOrder(datagrams: seq<Datagram>)
    requires !Receive(datagrams).fatal
    ensures var s := Receive(datagrams);
            AllPaired(s.commands) <==> Timely(datagrams)
    ensures var s := Receive(datagrams); var fds := FdsOf(datagrams); var n := |Creations(s.commands)|;
            AllPaired(s.commands) ==>
              n <= |fds| && s.fds == fds[n..] && forall i | 0 <= i < n :: Creations(s.commands)[i].fd == Some(fds[i])
  {
    PairingInduction(datagrams);
    DescriptorsConserved(datagrams);
    DescriptorsDoNotParse(datagrams);
    var s := Receive(datagrams);
    if AllPaired(s.commands) {
      AttachedAreCreations(s.commands);
    }
  }

  lemma {:induction false} PairingInduction(datagrams: seq<Datagram>)
    requires !Receive(datagrams).fatal
    ensures AllPaired(Receive(datagrams).commands) <==> Timely(datagrams)
  {
    if datagrams != [] {
      var front, last := datagrams[..|datagrams| - 1], datagrams[|datagrams| - 1];
      var before := Receive(front);
      PairingInduction(front);
      TimelyLast(datagrams);
      DescriptorsConserved(front);
      DescriptorsDoNotParse(front);
      DescriptorsDoNotParse(datagrams);
      var d := Drain(before.rest + last.bytes);
      DrainIsBare(before.rest + last.bytes);
      AttachPairs(d.commands, before.fds + FdOf(last));
      AttachOnlyAddsFds(d.commands, before.fds + FdOf(last));
      CreationsAppend(before.commands, Attach(d.commands, before.fds + FdOf(last)).0);
      if AllPaired(before.commands) {
        AttachedAreCreations(before.commands);
      }
    }
  }

  lemma FirstAttached(commands: seq<Command>)
    requires commands != [] && (RequiresFd(commands[0]) <==> commands[0].fd.Some?)
    ensures var first := commands[0];
            Attached(commands) == (if RequiresFd(first) then [first.fd.value] else []) + Attached(commands[1..]) &&
            Creations(commands) == (if RequiresFd(first) then [first] else []) + Creations(commands[1..])
  {
  }

  lemma {:induction false} AttachedAreCreations(commands: seq<Command>)
    requires AllPaired(commands) && forall c <- commands :: c.fd.Some? ==> RequiresFd(c)
    ensures |Attached(commands)| == |Creations(commands)|
    ensures forall i | 0 <= i < |Creations(commands)| :: Creations(commands)[i].fd == Some(Attached(commands)[i])
  {
    if commands != [] {
      hide Attached, Creations, Carried, Needing;
      var first, rest := commands[0], commands[1..];
      assert forall c <- rest :: c in commands;
      AttachedAreCreations(rest);
      FirstAttached(commands);
      var one := if RequiresFd(first) then 1 else 0;
      forall i | 0 <= i < |Creations(commands)| ensures Creations(commands)[i].fd == Some(Attached(commands)[i]) {
        if i >= one {
          assert Creations(commands)[i] == Creations(rest)[i - one];
        }
      }
    }
  }

  // The first `off` bytes and `fdsOff` descriptors have been made into `commands`.
  ghost predicate Parsing(v: Text, fds: seq<int>, off: nat, fdsOff: nat, commands: seq<Command>)
    requires off <= |v| && fdsOff <= |fds|
  {
    var whole, todo := Drain(v), Drain(v[off..]);
    var ahead := Attach(todo.commands, fds[fdsOff..]);
    whole.rest == todo.rest && whole.fatal == todo.fatal &&
    Attach(whole.commands, fds) == (commands + ahead.0, ahead.1)
  }

  lemma ParsingStarts(v: Text, fds: seq<int>)
    ensures Parsing(v, fds, 0, 0, [])
  {
    hide Drain, Attach;
    assert v[0..] == v && fds[0..] == fds;
    var ahead := Attach(Drain(v).commands, fds);
    assert [] + ahead.0 == ahead.0;
  }

  // One turn of the parsing loop.
  lemma ParsingTurn(v: Text, fds: seq<int>, off: nat, fdsOff: nat, commands: seq<Command>)
    requires off <= |v| && fdsOff <= |fds| && Parsing(v, fds, off, fdsOff, commands)
    ensures var p := Decode(v[off..]);
            && (p.Fatal? ==> Drain(v).fatal)
            && (p.NeedMore? ==> !Drain(v).fatal && Drain(v).rest == v[off..] &&
                                Attach(Drain(v).commands, fds) == (commands, fds[fdsOff..]))
            && (p.Parsed? ==>
                  var took := RequiresFd(p.command) && fdsOff < |fds|;
                  var paired := if took then p.command.(fd := Some(fds[fdsOff])) else p.command;
                  Parsing(v, fds, off + p.consumed, if took then fdsOff + 1 else fdsOff, commands + [paired]))
  {
    hide Decode, Drain, Attach, RequiresFd;
    DrainUnfold(v[off..]);
    AttachUnfold([], fds[fdsOff..]);
    var p := Decode(v[off..]);
    if p.Parsed? {
      assert v[off..][p.consumed..] == v[off + p.consumed..];
      var later := Drain(v[off + p.consumed..]).commands;
      AttachTurn(p.command, later, fds, fdsOff);
      var took := RequiresFd(p.command) && fdsOff < |fds|;
      var paired := if took then p.command.(fd := Some(fds[fdsOff])) else p.command;
      var ahead := Attach(later, fds[if took then fdsOff + 1 else fdsOff..]);
      assert commands + ([paired] + ahead.0) == commands + [paired] + ahead.0;
    } else {
      assert commands + [] == commands;
    }
  }

  /// The parser object.

  class CommandParser {
    var longbuf: Text
    var longbufFds: seq<int>

    constructor ()
      ensures longbuf == [] && longbufFds == []
    {
      longbuf, longbufFds := [], [];
    }

    // Takes one read from a pipe. `fatal` stands for the death of the process.
    method ParseCommands(input: Input) returns (commands: seq<Command>, eof: bool, fatal: bool)
      requires input.Data? ==> input.bytes != []
      modifies this
      ensures eof == input.EndOfFile?
      ensures longbufFds == old(longbufFds)
      ensures !input.Data? ==> commands == [] && !fatal && longbuf == old(longbuf)
      ensures input.Data? ==>
                var d := Drain(old(longbuf) + input.bytes);
                fatal == d.fatal && (!fatal ==> commands == d.commands && longbuf == d.rest)
    {
      hide Decode, Drain;
      commands, eof, fatal := [], input.EndOfFile?, false;
      if !input.Data? {
        return;
      }
      longbuf := longbuf + input.bytes;
      var v := longbuf;
      var vOff, consumedTotal := 0, 0;
      ghost var goal, todo := Drain(v), Drain(v);
      while true
        invariant vOff == consumedTotal <= |v| && longbuf == v && longbufFds == old(longbufFds)
        invariant todo == Drain(v[vOff..])
        invariant goal.commands == commands + todo.commands && goal.rest == todo.rest && goal.fatal == todo.fatal
        decreases |v| - vOff
      {
        DrainUnfold(v[vOff..]);
        var maybeCommand := CommandCodec.Read(v[vOff..]);
        if maybeCommand.Fatal? {
          return [], false, true;
        }
        if maybeCommand.NeedMore? {
          break;
        }
        todo := Drain(v[vOff..][maybeCommand.consumed..]);
        assert v[vOff..][maybeCommand.consumed..] == v[vOff + maybeCommand.consumed..];
        consumedTotal := consumedTotal + maybeCommand.consumed;
        vOff := vOff + maybeCommand.consumed;
        commands := commands + [maybeCommand.command];
      }
      longbuf := longbuf[consumedTotal..];
    }

    // Takes one message from a socket; a descriptor may come beside its bytes.
    method ParseSocketCommands(input: Input) returns (commands: seq<Command>, eof: bool, fatal: bool)
      requires input.Data? ==> input.bytes != []
      modifies this
      ensures eof == input.EndOfFile?
      ensures !input.Data? ==>
                commands == [] && !fatal && longbuf == old(longbuf) && longbufFds == old(longbufFds)
      ensures input.Data? ==>
                var d := Drain(old(longbuf) + input.bytes);
                var (paired, left) := Attach(d.commands, old(longbufFds) + FdOf(Datagram(input.bytes, input.fd)));
                fatal == d.fatal && (!fatal ==> commands == paired && longbuf == d.rest && longbufFds == left)
    {
      hide Decode, Drain, Attach, RequiresFd, Parsing;
      commands, eof, fatal := [], input.EndOfFile?, false;
      if !input.Data? {
        return;
      }
      if input.fd.Some? {
        longbufFds := longbufFds + [input.fd.value];
      }
      longbuf := longbuf + input.bytes;
      var v, vFds := longbuf, longbufFds;
      assert vFds == old(longbufFds) + FdOf(Datagram(input.bytes, input.fd));
      var vFdsOff, consumedFdsTotal := 0, 0;
      var vOff, consumedTotal := 0, 0;
      ParsingStarts(v, vFds);
      while true
        invariant vOff == consumedTotal <= |v| && longbuf == v
        invariant vFdsOff == consumedFdsTotal <= |vFds| && longbufFds == vFds
        invariant Parsing(v, vFds, vOff, vFdsOff, commands)
        decreases |v| - vOff
      {
        ParsingTurn(v, vFds, vOff, vFdsOff, commands);
        var maybeCommand := CommandCodec.Read(v[vOff..]);
        if maybeCommand.Fatal? {
          return [], false, true;
        }
        if maybeCommand.NeedMore? {
          break;
        }
        var command := maybeCommand.command;
        if RequiresFd(command) {
          if vFdsOff < |vFds| {
            command := command.(fd := Some(vFds[vFdsOff]));
            vFdsOff := vFdsOff + 1;
            consumedFdsTotal := consumedFdsTotal + 1;
          }
        }
        consumedTotal := consumedTotal + maybeCommand.consumed;
        vOff := vOff + maybeCommand.consumed;
        commands := commands + [command];
      }
      longbuf := longbuf[consumedTotal..];
      longbufFds := longbufFds[consumedFdsTotal..];
    }
  }
}
