/**
 The wire format of the commands iorapd sends to the prefetcher daemon: a choice number followed by
 the fields that choice uses, packed without padding.

 `Encode` and `Decode` are the reference definitions, written field by field from the layout
 table; CommandCodec holds the switch-by-switch reader and writer and proves them equal to these.
 */
module Codec {
  import opened Wrappers
  import opened Bytes

  datatype Choice =
    | RegisterFilePath
    | UnregisterFilePath
    | ReadAhead
    | Exit
    | CreateSession
    | DestroySession
    | DumpSession
    | DumpEverything
    | CreateFdSession

  datatype Command = Command(
    choice: Choice,
    sessionId: uint32,
    id: uint32,
    filePath: Option<Text>,  // also the description of a new session
    kind: uint32,            // a ReadAheadKind, but any number can come off the wire
    length: uint64,
    offset: uint64,
    fd: Option<int>          // travels beside the bytes, only for CreateFdSession
  )

  // What becomes of the bytes at the front of a buffer. Fatal is LOG(FATAL) on an unknown choice.
  datatype Parse = Parsed(command: Command, consumed: nat) | NeedMore | Fatal

  function Number(choice: Choice): uint32 {
    match choice
    case RegisterFilePath => 0
    case UnregisterFilePath => 1
    case ReadAhead => 2
    case Exit => 3
    case CreateSession => 4
    case DestroySession => 5
    case DumpSession => 6
    case DumpEverything => 7
    case CreateFdSession => 8
  }

  function ChoiceOf(number: uint32): (choice: Option<Choice>)
    ensures forall c: Choice :: choice == Some(c) <==> Number(c) == number
  {
    if number == 0 then Some(RegisterFilePath)
    else if number == 1 then Some(UnregisterFilePath)
    else if number == 2 then Some(ReadAhead)
    else if number == 3 then Some(Exit)
    else if number == 4 then Some(CreateSession)
    else if number == 5 then Some(DestroySession)
    else if number == 6 then Some(DumpSession)
    else if number == 7 then Some(DumpEverything)
    else if number == 8 then Some(CreateFdSession)
    else None
  }

  /// The layout table.

  predicate HasSession(choice: Choice) {
    !choice.Exit? && !choice.DumpEverything?
  }

  predicate HasId(choice: Choice) {
    choice.RegisterFilePath? || choice.UnregisterFilePath? || choice.ReadAhead?
  }

  predicate HasText(choice: Choice) {
    choice.RegisterFilePath? || choice.CreateSession? || choice.CreateFdSession?
  }

  predicate RequiresFd(command: Command) {
    command.choice.CreateFdSession?
  }

  // The bytes before the contents of the text, if any.
  function FixedSize(choice: Choice): nat {
    4 + (if HasSession(choice) then 4 else 0) + (if HasId(choice) then 4 else 0) +
    (if choice.ReadAhead? then 4 + 8 + 8 else 0) + (if HasText(choice) then 4 else 0)
  }

  // `Write` refuses a command that lacks its text.
  predicate Serializable(command: Command) {
    HasText(command.choice) ==> command.filePath.Some?
  }

  // The length prefix is 32 bits wide, and is truncated for a longer text.
  predicate TextFits(command: Command)
    requires Serializable(command)
  {
    HasText(command.choice) ==> |command.filePath.value| < 0x1_0000_0000
  }

  // A command as `Read` hands it out: unused fields are zero and no descriptor is attached.
  function Wire(command: Command): Command {
    var c := command.choice;
    Command(c,
            if HasSession(c) then command.sessionId else 0,
            if HasId(c) then command.id else 0,
            if HasText(c) then command.filePath else None,
            if c.ReadAhead? then command.kind else 0,
            if c.ReadAhead? then command.length else 0,
            if c.ReadAhead? then command.offset else 0,
            None)
  }

  function SessionImage(command: Command): Text {
    if HasSession(command.choice) then LittleEndian(command.sessionId, 4) else []
  }

  function IdImage(command: Command): Text {
    if HasId(command.choice) then LittleEndian(command.id, 4) else []
  }

  function ReadAheadImage(command: Command): Text {
    if command.choice.ReadAhead? then
      LittleEndian(command.kind, 4) + LittleEndian(command.length, 8) + LittleEndian(command.offset, 8)
    else []
  }

  function TextImage(command: Command): Text
    requires Serializable(command)
  {
    if HasText(command.choice) then
      LittleEndian(|command.filePath.value| % 0x1_0000_0000, 4) + command.filePath.value
    else []
  }

  function Encode(command: Command): (image: Text)
    requires Serializable(command)
    ensures |image| == FixedSize(command.choice) + if HasText(command.choice) then |command.filePath.value| else 0
  {
    LittleEndian(Number(command.choice), 4) + SessionImage(command) + IdImage(command) +
    ReadAheadImage(command) + TextImage(command)
  }

  function U32At(buf: Text, off: nat): (value: uint32)
    requires off + 4 <= |buf|
  {
    FromLittleEndianBound(buf[off..off + 4]);
    SpanOfWords();
    FromLittleEndian(buf[off..off + 4])
  }

  function U64At(buf: Text, off: nat): (value: uint64)
    requires off + 8 <= |buf|
  {
    FromLittleEndianBound(buf[off..off + 8]);
    SpanOfWords();
    FromLittleEndian(buf[off..off + 8])
  }

  // The fixed-size fields of a command whose choice is known.
  function FieldsAt(choice: Choice, buf: Text): Command
    requires FixedSize(choice) <= |buf|
  {
    Command(choice,
            if HasSession(choice) then U32At(buf, 4) else 0,
            if HasId(choice) then U32At(buf, 8) else 0,
            None,
            if choice.ReadAhead? then U32At(buf, 12) else 0,
            if choice.ReadAhead? then U64At(buf, 16) else 0,
            if choice.ReadAhead? then U64At(buf, 24) else 0,
            None)
  }

  function Decode(buf: Text): (p: Parse)
    ensures p.Parsed? ==> 4 <= p.consumed <= |buf|
  {
    if |buf| < 4 then NeedMore else
    match ChoiceOf(U32At(buf, 0))
    case None => Fatal
    case Some(choice) =>
      var fixed := FixedSize(choice);
      if |buf| < fixed then NeedMore
      else if !HasText(choice) then Parsed(FieldsAt(choice, buf), fixed)
      else
        var end := fixed + U32At(buf, fixed - 4);
        if |buf| < end then NeedMore
        else Parsed(FieldsAt(choice, buf).(filePath := Some(buf[fixed..end])), end)
  }

  /// Reading words out of a concatenation.

  lemma U32AtImage(pre: Text, value: uint32, post: Text)
    ensures U32At(pre + LittleEndian(value, 4) + post, |pre|) == value
  {
    assert (pre + LittleEndian(value, 4) + post)[|pre|..|pre| + 4] == LittleEndian(value, 4);
    LittleEndianRoundTrip(value, 4);
    SpanOfWords();
  }

  lemma U64AtImage(pre: Text, value: uint64, post: Text)
    ensures U64At(pre + LittleEndian(value, 8) + post, |pre|) == value
  {
    assert (pre + LittleEndian(value, 8) + post)[|pre|..|pre| + 8] == LittleEndian(value, 8);
    LittleEndianRoundTrip(value, 8);
    SpanOfWords();
  }

  // The session and path ids of an encoded command, whatever follows it.
  lemma IdsRoundTrip(command: Command, rest: Text)
    requires Serializable(command)
    ensures var buf := Encode(command) + rest;
            ChoiceOf(U32At(buf, 0)) == Some(command.choice) &&
            (HasSession(command.choice) ==> U32At(buf, 4) == command.sessionId) &&
            (HasId(command.choice) ==> U32At(buf, 8) == command.id)
  {
    hide LittleEndian, U32At;
    var buf := Encode(command) + rest;
    var number := LittleEndian(Number(command.choice), 4);
    var session, id := SessionImage(command), IdImage(command);
    var tail := ReadAheadImage(command) + TextImage(command) + rest;
    assert buf == [] + number + (session + id + tail);
    U32AtImage([], Number(command.choice), session + id + tail);
    if HasSession(command.choice) {
      assert buf == number + session + (id + tail);
      U32AtImage(number, command.sessionId, id + tail);
    }
    if HasId(command.choice) {
      assert buf == (number + session) + id + tail;
      U32AtImage(number + session, command.id, tail);
    }
  }

  // The read-ahead fields of an encoded command, whatever follows it.
  lemma ReadAheadRoundTrip(command: Command, rest: Text)
    requires command.choice.ReadAhead?
    ensures var buf := Encode(command) + rest;
            U32At(buf, 12) == command.kind && U64At(buf, 16) == command.length && U64At(buf, 24) == command.offset
  {
    hide LittleEndian, U32At, U64At;
    var buf := Encode(command) + rest;
    var pre := LittleEndian(Number(command.choice), 4) + SessionImage(command) + IdImage(command);
    var kind, length, offset :=
      LittleEndian(command.kind, 4), LittleEndian(command.length, 8), LittleEndian(command.offset, 8);
    assert buf == pre + kind + (length + offset + rest);
    U32AtImage(pre, command.kind, length + offset + rest);
    assert buf == (pre + kind) + length + (offset + rest);
    U64AtImage(pre + kind, command.length, offset + rest);
    assert buf == (pre + kind + length) + offset + rest;
    U64AtImage(pre + kind + length, command.offset, rest);
  }

  // The text field of an encoded command, whatever follows it.
  lemma TextRoundTrip(command: Command, rest: Text)
    requires Serializable(command) && HasText(command.choice)
    ensures var buf := Encode(command) + rest; var fixed := FixedSize(command.choice);
            U32At(buf, fixed - 4) == |command.filePath.value| % 0x1_0000_0000 &&
            buf[fixed..fixed + |command.filePath.value|] == command.filePath.value
  {
    hide LittleEndian, U32At;
    var buf := Encode(command) + rest;
    var text := command.filePath.value;
    var head := LittleEndian(Number(command.choice), 4) + SessionImage(command) + IdImage(command);
    var length := LittleEndian(|text| % 0x1_0000_0000, 4);
    assert buf == head + length + (text + rest);
    U32AtImage(head, |text| % 0x1_0000_0000, text + rest);
    assert buf == (head + length) + text + rest;
  }

  /**
   The round trip: what `Encode` produced is read back, with nothing more and nothing less consumed,
   no matter what follows. It holds exactly when the text is shorter than 2^32.
   */
  lemma RoundTrip(command: Command, rest: Text)
    requires Serializable(command)
    ensures Decode(Encode(command) + rest) == Parsed(Wire(command), |Encode(command)|) <==> TextFits(command)
  {
    hide LittleEndian, U32At, U64At;
    IdsRoundTrip(command, rest);
    if command.choice.ReadAhead? {
      ReadAheadRoundTrip(command, rest);
    }
    if HasText(command.choice) {
      TextRoundTrip(command, rest);
    }
  }

  lemma WordsExtend(buf: Text, more: Text, off: nat)
    ensures off + 4 <= |buf| ==> U32At(buf + more, off) == U32At(buf, off)
    ensures off + 8 <= |buf| ==> U64At(buf + more, off) == U64At(buf, off)
  {
    if off + 4 <= |buf| {
      assert (buf + more)[off..off + 4] == buf[off..off + 4];
    }
    if off + 8 <= |buf| {
      assert (buf + more)[off..off + 8] == buf[off..off + 8];
    }
  }

  // More bytes never change a verdict that has been reached.
  lemma DecodeExtends(buf: Text, more: Text)
    requires !Decode(buf).NeedMore?
    ensures Decode(buf + more) == Decode(buf)
  {
    hide U32At, U64At;
    WordsExtend(buf, more, 0);
    WordsExtend(buf, more, 4);
    WordsExtend(buf, more, 8);
    WordsExtend(buf, more, 12);
    WordsExtend(buf, more, 16);
    WordsExtend(buf, more, 24);
    var p := Decode(buf);
    if p.Parsed? && HasText(p.command.choice) {
      var fixed := FixedSize(p.command.choice);
      assert (buf + more)[fixed..p.consumed] == buf[fixed..p.consumed];
    }
  }

  /**
   The format is prefix-free: a proper prefix of an encoded command is never taken for a command,
   so the reader consumes nothing and waits.
   */
  lemma ProperPrefixWaits(command: Command, cut: nat)
    requires Serializable(command) && TextFits(command) && cut < |Encode(command)|
    ensures Decode(Encode(command)[..cut]) == NeedMore
  {
    hide Decode, Encode;
    var image := Encode(command);
    if !Decode(image[..cut]).NeedMore? {
      DecodeExtends(image[..cut], image[cut..]);
      assert image[..cut] + image[cut..] == image == image + [];
      RoundTrip(command, []);
      assert false;
    }
  }

  // Words on the wire are the images of their values.
  lemma WordsSound(buf: Text, off: nat)
    ensures off + 4 <= |buf| ==> LittleEndian(U32At(buf, off), 4) == buf[off..off + 4]
    ensures off + 8 <= |buf| ==> LittleEndian(U64At(buf, off), 8) == buf[off..off + 8]
  {
    hide LittleEndian, FromLittleEndian;
    if off + 4 <= |buf| {
      ImageRoundTrip(buf[off..off + 4]);
    }
    if off + 8 <= |buf| {
      ImageRoundTrip(buf[off..off + 8]);
    }
  }

  lemma NoText(command: Command)
    requires !HasText(command.choice)
    ensures TextImage(command) == []
  {
  }

  lemma TextSound(buf: Text)
    requires Decode(buf).Parsed? && HasText(Decode(buf).command.choice)
    ensures var p := Decode(buf); var c := p.command; var fixed := FixedSize(c.choice);
            Serializable(c) && TextFits(c) && fixed <= p.consumed && TextImage(c) == buf[fixed - 4..p.consumed]
  {
    hide LittleEndian, U32At, U64At;
    var p := Decode(buf);
    var fixed := FixedSize(p.command.choice);
    WordsSound(buf, fixed - 4);
    assert p.command.filePath == Some(buf[fixed..p.consumed]);
    assert buf[fixed - 4..p.consumed] == buf[fixed - 4..fixed] + buf[fixed..p.consumed];
  }

  // The bytes of all the other fields.
  lemma HeadSound(buf: Text)
    requires Decode(buf).Parsed?
    ensures var c := Decode(buf).command; var head := FixedSize(c.choice) - if HasText(c.choice) then 4 else 0;
            head <= |buf| &&
            LittleEndian(Number(c.choice), 4) + SessionImage(c) + IdImage(c) + ReadAheadImage(c) == buf[..head]
  {
    hide LittleEndian, U32At, U64At;
    var c := Decode(buf).command;
    WordsSound(buf, 0);
    assert LittleEndian(Number(c.choice), 4) == buf[0..4];
    if HasSession(c.choice) {
      WordsSound(buf, 4);
      assert SessionImage(c) == buf[4..8];
    }
    if HasId(c.choice) {
      WordsSound(buf, 8);
      assert IdImage(c) == buf[8..12];
    }
    if c.choice.ReadAhead? {
      WordsSound(buf, 12);
      WordsSound(buf, 16);
      WordsSound(buf, 24);
      assert ReadAheadImage(c) == buf[12..32];
    }
  }

  /**
   The format is canonical: whatever is accepted off the wire is the encoding of the command
   that comes out, so no two byte strings stand for one command.
   */
  lemma DecodeSound(buf: Text)
    requires Decode(buf).Parsed?
    ensures var p := Decode(buf);
            p.command == Wire(p.command) && Serializable(p.command) && TextFits(p.command) &&
            Encode(p.command) == buf[..p.consumed]
  {
    hide LittleEndian, U32At, U64At, TextImage, SessionImage, IdImage, ReadAheadImage;
    var p := Decode(buf);
    var head := FixedSize(p.command.choice) - if HasText(p.command.choice) then 4 else 0;
    HeadSound(buf);
    if HasText(p.command.choice) {
      TextSound(buf);
      assert buf[..p.consumed] == buf[..head] + buf[head..p.consumed];
    } else {
      NoText(p.command);
      assert buf[..head] + [] == buf[..head];
    }
  }
}
